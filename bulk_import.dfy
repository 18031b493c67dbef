/**
  The record filter of the bulk importer (bulk-import.js): `processData`
  walks the parsed input records, completes the ones it can in place (a
  looked-up title, a parsed date) and collects the complete ones, and
  `importData` sends the collected records only when there is at least one.

  The noembed service is the parameter `noembed(url)`, the `title` field of its
  answer (`None` when the request or its JSON fails), and `new Date(x).getTime()`
  is the parameter `parse(x)` (`None` where it is NaN).
 */
module BulkImport {
  import opened Wrappers
  import opened JsStrings
  import opened Urls

  /** The value of a `sharedAt` field: a JSON string or number, or the `Date` the importer replaces it with. */
  datatype Stamp = Text(text: string) | Number(value: int) | Date(time: int)

  /** JavaScript truthiness of an optional `sharedAt` field. */
  predicate StampTruthy(s: Option<Stamp>) {
    match s
    case None => false
    case Some(Text(t)) => t != ""
    case Some(Number(v)) => v != 0
    case Some(Date(_)) => true
  }

  /** An input record; an absent field is `None`. */
  datatype Record = Record(url: Option<string>, title: Option<string>, sharedBy: Option<string>, sharedAt: Option<Stamp>)

  /** `item.url && item.title && item.sharedBy && item.sharedAt`. */
  predicate Complete(r: Record) {
    Truthy(r.url) && Truthy(r.title) && Truthy(r.sharedBy) && StampTruthy(r.sharedAt)
  }

  /**
    The importer's `getTitleFromUrl(item.url)`: only YouTube links are looked
    up; a missing url makes `url.includes` throw, which is caught, giving null.
   */
  function LookupTitle(url: Option<string>, noembed: string -> Option<string>): (title: Option<string>)
    ensures title.Some? ==> url.Some? && IsYouTube(url.value) && title.value != ""
    ensures url.Some? && IsYouTube(url.value) ==> title == OrNull(noembed(url.value))
  {
    match url
    case None => None
    case Some(u) => if IsYouTube(u) then OrNull(noembed(u)) else None
  }

  // ----- One record -----

  /** Why a record ends up collected or not. */
  datatype Verdict =
    | Kept        // collected by `items.push(item)`
    | NoTitle     // no title and none could be looked up
    | BadDate     // a `sharedAt` that does not parse as a date
    | Incomplete  // still missing a field after the slow path

  /** What the loop does with one record: the record as it is left, and the verdict. */
  datatype Outcome = Outcome(record: Record, verdict: Verdict)

  /** The title a record has once the slow path's lookup has run, if any. */
  function TitleAfterLookup(r: Record, noembed: string -> Option<string>): (title: Option<string>)
    ensures Truthy(r.title) ==> title == r.title
    ensures !Truthy(r.title) ==> title == LookupTitle(r.url, noembed)
  {
    if Truthy(r.title) then r.title else LookupTitle(r.url, noembed)
  }

  /**
    One iteration of the loop of `processData` on record `r`: a complete
    record is collected untouched; otherwise a missing title is looked up, a
    present `sharedAt` is parsed into a `Date`, and the record is collected if
    it is then complete.
   */
  function Process(r: Record, noembed: string -> Option<string>, parse: Stamp -> Option<int>): (out: Outcome)
    ensures out.verdict == Kept ==> Complete(out.record)
  {
    if Complete(r) then Outcome(r, Kept)
    else
      match TitleAfterLookup(r, noembed)
      case None => Outcome(r, NoTitle)
      case Some(t) =>
        var titled := r.(title := Some(t));
        if !StampTruthy(r.sharedAt) then
          Outcome(titled, if Complete(titled) then Kept else Incomplete)
        else
          match parse(r.sharedAt.value)
          case None => Outcome(titled, BadDate)
          case Some(time) =>
            var dated := titled.(sharedAt := Some(Date(time)));
            Outcome(dated, if Complete(dated) then Kept else Incomplete)
  }

  /**
    Which verdict a record gets and how it is left: a complete record is
    collected untouched; a record is dropped for want of a title, for a date
    that does not parse, or otherwise only for a missing url, `sharedBy` or
    `sharedAt`.
   */
  lemma ProcessVerdicts(r: Record, noembed: string -> Option<string>, parse: Stamp -> Option<int>)
    ensures var out, title := Process(r, noembed, parse), TitleAfterLookup(r, noembed);
      && (Complete(r) ==> out == Outcome(r, Kept))
      && (out.verdict == NoTitle <==> !Complete(r) && title.None?)
      && (out.verdict == BadDate <==>
            !Complete(r) && title.Some? && StampTruthy(r.sharedAt) && parse(r.sharedAt.value).None?)
      && (out.verdict == Incomplete <==>
            && !Complete(r) && title.Some?
            && !(StampTruthy(r.sharedAt) && parse(r.sharedAt.value).None?)
            && (!Truthy(r.url) || !Truthy(r.sharedBy) || !StampTruthy(r.sharedAt)))
      && out.record.url == r.url && out.record.sharedBy == r.sharedBy
      && (out.verdict == NoTitle ==> out.record == r)
      && (out.verdict != NoTitle ==> out.record.title == title)
      && (out.verdict != NoTitle && !Complete(r) && StampTruthy(r.sharedAt) && parse(r.sharedAt.value).Some? ==>
            out.record.sharedAt == Some(Date(parse(r.sharedAt.value).value)))
      && (out.verdict != NoTitle && !StampTruthy(r.sharedAt) ==> out.record.sharedAt == r.sharedAt)
  {
  }

  /** A record without a title can only be collected when its url is a YouTube link. */
  lemma TitleOnlyFromYouTube(r: Record, noembed: string -> Option<string>, parse: Stamp -> Option<int>)
    requires !Truthy(r.title) && Process(r, noembed, parse).verdict == Kept
    ensures r.url.Some? && IsYouTube(r.url.value)
    ensures Process(r, noembed, parse).record.title == OrNull(noembed(r.url.value))
  {
  }

  /** A complete record is collected even when its `sharedAt` would not parse: it skips the date check. */
  lemma CompleteSkipsDateCheck(r: Record, noembed: string -> Option<string>, parse: Stamp -> Option<int>)
    requires Complete(r) && parse(r.sharedAt.value).None?
    ensures Process(r, noembed, parse) == Outcome(r, Kept)
  {
  }

  // ----- The whole input -----

  /** The records `processData` returns for `data`, in input order. */
  function Survivors(data: seq<Record>, noembed: string -> Option<string>, parse: Stamp -> Option<int>): (items: seq<Record>)
    ensures |items| <= |data|
    ensures forall k :: 0 <= k < |items| ==> Complete(items[k])
  {
    if data == [] then []
    else
      var out := Process(data[|data| - 1], noembed, parse);
      Survivors(data[..|data| - 1], noembed, parse) + if out.verdict == Kept then [out.record] else []
  }

  /** The input positions whose records are collected, in increasing order. */
  function KeptPositions(data: seq<Record>, noembed: string -> Option<string>, parse: Stamp -> Option<int>): seq<nat>
  {
    if data == [] then []
    else
      var last := |data| - 1;
      KeptPositions(data[..last], noembed, parse) + if Process(data[last], noembed, parse).verdict == Kept then [last] else []
  }

  /**
    `processData` is an order-preserving filter: its result is, in input order,
    the processed records at exactly the positions whose verdict is `Kept`.
   */
  lemma {:induction false} SurvivorsAreKeptRecords(data: seq<Record>, noembed: string -> Option<string>, parse: Stamp -> Option<int>)
    ensures var items, pos := Survivors(data, noembed, parse), KeptPositions(data, noembed, parse);
      && |items| == |pos|
      && (forall k, l :: 0 <= k < l < |pos| ==> pos[k] < pos[l])
      && (forall k :: 0 <= k < |pos| ==>
            && pos[k] < |data| && Process(data[pos[k]], noembed, parse).verdict == Kept
            && items[k] == Process(data[pos[k]], noembed, parse).record)
      && (forall i :: 0 <= i < |data| && Process(data[i], noembed, parse).verdict == Kept ==> i in pos)
  {
    if data != [] {
      var last := |data| - 1;
      var init := data[..last];
      SurvivorsAreKeptRecords(init, noembed, parse);
      forall i | 0 <= i < last ensures data[i] == init[i] {
      }
    }
  }

  /** The survivors of a prefix one record longer. */
  lemma SurvivorsStep(data: seq<Record>, i: nat, noembed: string -> Option<string>, parse: Stamp -> Option<int>)
    requires i < |data|
    ensures var out := Process(data[i], noembed, parse);
      Survivors(data[..i + 1], noembed, parse) == Survivors(data[..i], noembed, parse) + if out.verdict == Kept then [out.record] else []
  {
    assert data[..i + 1][..i] == data[..i];
  }

  /**
    `processData(data)`: the records of `data` are completed in place where the
    slow path changes them, and the collected ones are returned together with
    the `processed` counter.
   */
  method ProcessData(data: array<Record>, noembed: string -> Option<string>, parse: Stamp -> Option<int>)
      returns (items: seq<Record>, processed: nat)
    modifies data
    ensures processed == data.Length
    ensures items == Survivors(old(data[..]), noembed, parse)
    ensures forall i :: 0 <= i < data.Length ==> data[i] == Process(old(data[i]), noembed, parse).record
  {
    ghost var input := data[..];
    ghost var target := seq(data.Length, k requires 0 <= k < data.Length => Process(input[k], noembed, parse).record);
    items := [];
    processed := 0;
    var i := 0;
    while i < data.Length
      invariant 0 <= i <= data.Length && processed == i
      invariant items == Survivors(input[..i], noembed, parse)
      invariant data[..i] == target[..i] && data[i..] == input[i..]
    {
      var at := i;
      var item := data[at];
      SurvivorsStep(input, at, noembed, parse);
      ghost var out := Process(item, noembed, parse);
      assert target[at] == out.record;
      i := i + 1;
      processed := processed + 1;

      if Complete(item) {
        items := items + [item];
        assert data[at] == out.record;
        continue;
      }

      if !Truthy(item.title) {
        var title := LookupTitle(item.url, noembed);
        if Truthy(title) {
          item := item.(title := title);
          data[at] := item;
        } else {
          assert data[at] == out.record;
          continue;
        }
      }

      if StampTruthy(item.sharedAt) {
        var date := parse(item.sharedAt.value);
        if date.None? {
          assert data[at] == out.record;
          continue;
        }
        item := item.(sharedAt := Some(Date(date.value)));
        data[at] := item;
      }

      if Complete(item) {
        items := items + [item];
      }
      assert data[at] == out.record;
    }
    assert input[..data.Length] == input;
    assert data[..] == data[..data.Length] == target;
    forall k | 0 <= k < data.Length ensures data[k] == Process(old(data[k]), noembed, parse).record {
      assert data[k] == data[..][k] == target[k];
    }
  }

  /**
    The part of `importData` after reading the file: the body `{ items }` of
    the POST to the bulk endpoint, or `None` when no record survives and
    nothing is sent.
   */
  method ImportData(data: array<Record>, noembed: string -> Option<string>, parse: Stamp -> Option<int>)
      returns (body: Option<seq<Record>>)
    modifies data
    ensures body.None? <==> Survivors(old(data[..]), noembed, parse) == []
    ensures body.Some? ==> body.value == Survivors(old(data[..]), noembed, parse)
    ensures forall i :: 0 <= i < data.Length ==> data[i] == Process(old(data[i]), noembed, parse).record
  {
    var items, processed := ProcessData(data, noembed, parse);
    if |items| == 0 {
      return None;
    }
    return Some(items);
  }
}
