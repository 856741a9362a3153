/**
 * getAllDeviceHistory (packages/core/src/devices.js:360-380) against a server that pages a
 * device's history, newest first, by the timestamp of the last record already seen.
 */
module History {
  import opened Wrappers

  datatype Record = Record(id: int, timestamp: Option<int>)

  datatype HistoryError = DeviceUuidRequired

  predicate Older(r: Record, lastKey: Option<int>) {
    lastKey.None? || (r.timestamp.Some? && r.timestamp.value < lastKey.value)
  }

  function AllOlder(h: seq<Record>, lastKey: Option<int>): seq<Record> {
    if h == [] then []
    else (if Older(h[0], lastKey) then [h[0]] else []) + AllOlder(h[1..], lastKey)
  }

  /** The server's answer: the newest pageSize records older than lastKey. */
  function Page(h: seq<Record>, lastKey: Option<int>, pageSize: nat): (p: seq<Record>)
    ensures |p| <= pageSize
  {
    var older := AllOlder(h, lastKey);
    if |older| <= pageSize then older else older[..pageSize]
  }

  predicate Descending(h: seq<Record>) {
    && (forall i :: 0 <= i < |h| ==> h[i].timestamp.Some?)
    && (forall i, j :: 0 <= i < j < |h| ==> h[i].timestamp.value > h[j].timestamp.value)
  }

  lemma {:induction false} OlderThanAll(h: seq<Record>, key: int)
    requires Descending(h) && forall i :: 0 <= i < |h| ==> h[i].timestamp.value < key
    ensures AllOlder(h, Some(key)) == h && AllOlder(h, None) == h
  {
    if h != [] {
      OlderThanAll(h[1..], key);
      assert h == [h[0]] + h[1..];
    }
  }

  /** Asking for what is older than record i - 1 gives the list from record i on. */
  lemma {:induction false} OlderThanSeen(h: seq<Record>, i: nat)
    requires Descending(h) && 0 < i <= |h|
    ensures AllOlder(h, h[i - 1].timestamp) == h[i..]
  {
    if i == 1 {
      OlderThanAll(h[1..], h[0].timestamp.value);
    } else {
      OlderThanSeen(h[1..], i - 1);
      assert h[1..][i - 1..] == h[i..];
    }
  }

  lemma {:induction false} EverythingAtFirst(h: seq<Record>)
    ensures AllOlder(h, None) == h
  {
    if h != [] {
      EverythingAtFirst(h[1..]);
      assert h == [h[0]] + h[1..];
    }
  }

  /** min(length, pages * pageSize). */
  function Reach(length: nat, pages: int, pageSize: nat): (n: nat)
    ensures n <= length
  {
    if pages <= 0 then 0 else if length <= pages * pageSize then length else pages * pageSize
  }

  /**
   * The loop returns exactly the newest maxPages * pageSize records, or all of them if there
   * are fewer: no gap, no repetition, whatever the page size divides.
   */
  method GetAllDeviceHistory(h: seq<Record>, deviceUUID: string, pageSize: nat, maxPages: int)
    returns (r: Result<seq<Record>, HistoryError>)
    requires Descending(h) && pageSize >= 1
    ensures r == if deviceUUID == "" then Err(DeviceUuidRequired) else Ok(h[..Reach(|h|, maxPages, pageSize)])
  {
    if deviceUUID == "" {
      return Err(DeviceUuidRequired);
    }
    var all: seq<Record> := [];
    var lastKey: Option<int> := None;
    var page := 0;
    ghost var seen := 0;
    EverythingAtFirst(h);
    while page < maxPages
      invariant 0 <= page && (page <= maxPages || page == 0)
      invariant seen == FullPages(page, pageSize) && Progress(h, all, lastKey, seen)
    {
      var res := Page(h, lastKey, pageSize);
      PageStep(h, all, lastKey, seen, pageSize, res);
      all := all + res;
      if !(|res| > 0 && |res| == pageSize) {
        LastPage(|h|, page, pageSize, maxPages, seen);
        return Ok(all);
      }
      lastKey := res[|res| - 1].timestamp;
      if lastKey.None? {
        break;
      }
      seen := seen + pageSize;
      page := page + 1;
    }
    AllPages(|h|, page, pageSize, maxPages, seen);
    r := Ok(all);
  }

  /** The first seen records are collected, and the server would go on with the rest. */
  predicate Progress(h: seq<Record>, all: seq<Record>, lastKey: Option<int>, seen: nat) {
    seen <= |h| && all == h[..seen] && AllOlder(h, lastKey) == h[seen..]
  }

  lemma PageStep(h: seq<Record>, all: seq<Record>, lastKey: Option<int>, seen: nat, pageSize: nat, res: seq<Record>)
    requires Descending(h) && pageSize >= 1 && Progress(h, all, lastKey, seen) && res == Page(h, lastKey, pageSize)
    ensures |res| == pageSize ==>
      res[|res| - 1].timestamp.Some? && Progress(h, all + res, res[|res| - 1].timestamp, seen + pageSize)
    ensures |res| != pageSize ==> |h| < seen + pageSize && all + res == h[..|h|]
  {
    if |res| == pageSize {
      OlderThanSeen(h, seen + pageSize);
      assert res[|res| - 1] == h[seen + pageSize - 1];
    }
  }

  /** The records of that many full pages. */
  function FullPages(pages: nat, pageSize: nat): nat {
    if pages == 0 then 0 else FullPages(pages - 1, pageSize) + pageSize
  }

  lemma {:induction false} FullPagesIsProduct(pages: nat, pageSize: nat)
    ensures FullPages(pages, pageSize) == pages * pageSize
  {
    if pages > 0 {
      FullPagesIsProduct(pages - 1, pageSize);
      assert pages * pageSize == (pages - 1) * pageSize + pageSize;
    }
  }

  lemma LastPage(length: nat, page: nat, pageSize: nat, maxPages: int, seen: nat)
    requires page < maxPages && seen == FullPages(page, pageSize) && length < seen + pageSize
    ensures Reach(length, maxPages, pageSize) == length
  {
    FullPagesIsProduct(page + 1, pageSize);
    assert (page + 1) * pageSize <= maxPages * pageSize;
  }

  lemma AllPages(length: nat, page: nat, pageSize: nat, maxPages: int, seen: nat)
    requires (page == maxPages || (page == 0 && maxPages <= 0)) && seen == FullPages(page, pageSize) && seen <= length
    ensures Reach(length, maxPages, pageSize) == seen
  {
    FullPagesIsProduct(page, pageSize);
  }
}
