/** One worker of the partitioned bulk loader (bulk.py): it loads the offset
    index, keeps the corpus lines whose index is congruent to its rank, cuts
    them into fixed-size windows, sends each window as one bulk request and
    resubmits the failed part of every response until the backend reports no
    errors. Backend responses are an oracle sequence consumed one per request. */
module Bulk {
  import opened Wrappers
  import opened Exceptions
  import opened PyInt
  import opened JsonValue
  import opened TextLines

  predicate StrictlyIncreasing(s: seq<int>) {
    forall j, k :: 0 <= j < k < |s| ==> s[j] < s[k]
  }

  // ------------------------------------------------------ offset index load

  /** `int(line.strip())` for one line of the offset file. */
  function ParseLine(line: string): Option<int> {
    ParseInt(Strip(line))
  }

  /** `[convert(line) for line in lines]` where a failed conversion raises
      ValueError; the first line that fails is the one reported. */
  function ParseEach(lines: seq<string>, convert: string -> Option<int>): (r: Result<seq<int>, Exception>)
    ensures r.Success? <==> forall k :: 0 <= k < |lines| ==> convert(lines[k]).Some?
    ensures r.Success? ==> |r.value| == |lines|
    ensures r.Success? ==> forall k :: 0 <= k < |lines| ==> convert(lines[k]) == Some(r.value[k])
    ensures r.Failure? ==> r.error == ValueError
  {
    if |lines| == 0 then Success([])
    else
      match ParseEach(lines[..|lines| - 1], convert)
      case Failure(e) => Failure(e)
      case Success(prefix) =>
        match convert(lines[|lines| - 1])
        case None => Failure(ValueError)
        case Some(v) => Success(prefix + [v])
  }

  /** Loading the offset file: `[int(line.strip()) for line in f]`. */
  function ParseOffsets(text: string): (r: Result<seq<int>, Exception>)
    ensures r.Success? ==> |r.value| == |Lines(text, '\n')|
  {
    ParseEach(Lines(text, '\n'), ParseLine)
  }

  /** When every line converts, the parse yields exactly the converted values. */
  lemma ParseEachAll(lines: seq<string>, convert: string -> Option<int>, vals: seq<int>)
    requires |vals| == |lines|
    requires forall k :: 0 <= k < |lines| ==> convert(lines[k]) == Some(vals[k])
    ensures ParseEach(lines, convert) == Success(vals)
  {
    var r := ParseEach(lines, convert);
    assert r.Success?;
    assert r.value == vals;
  }

  // ------------------------------------------------------ rank partition

  /** `[i for i in range(n) if i % total == rank]`, for a non-zero `total`. */
  function Owned(n: nat, rank: int, total: int): (idxs: seq<nat>)
    requires total != 0
    ensures StrictlyIncreasing(idxs)
    ensures forall k :: 0 <= k < |idxs| ==> idxs[k] < n && Mod(idxs[k], total) == rank
    ensures forall i :: 0 <= i < n && Mod(i, total) == rank ==> i in idxs
    decreases n
  {
    if n == 0 then []
    else Owned(n - 1, rank, total) + (if Mod(n - 1, total) == rank then [n - 1] else [])
  }

  /** The line indices a worker owns. The comprehension only divides by
      `total` when there is at least one line, so an empty index never raises. */
  function AllIdxs(n: nat, rank: int, total: int): (r: Result<seq<nat>, Exception>)
    ensures r.Failure? <==> total == 0 && n > 0
    ensures r.Failure? ==> r.error == ZeroDivisionError
    ensures r.Success? ==> StrictlyIncreasing(r.value)
    ensures r.Success? ==> forall i: nat :: i in r.value <==> i < n && Mod(i, total) == rank
  {
    if n == 0 then Success([])
    else if total == 0 then Failure(ZeroDivisionError)
    else Success(Owned(n, rank, total))
  }

  /** How many lines ranks `0 .. ranks - 1` own together. */
  function OwnedCount(n: nat, total: int, ranks: nat): nat
    requires total != 0
  {
    if ranks == 0 then 0 else OwnedCount(n, total, ranks - 1) + |Owned(n, ranks - 1, total)|
  }

  lemma {:induction false} OwnedCountStep(n: nat, total: int, ranks: nat)
    requires total >= 1
    ensures OwnedCount(n + 1, total, ranks) ==
            OwnedCount(n, total, ranks) + (if Mod(n, total) < ranks then 1 else 0)
    decreases ranks
  {
    if ranks > 0 {
      OwnedCountStep(n, total, ranks - 1);
      var r := ranks - 1;
      assert |Owned(n + 1, r, total)| == |Owned(n, r, total)| + (if Mod(n, total) == r then 1 else 0);
    }
  }

  lemma {:induction false} OwnedCountAll(n: nat, total: int)
    requires total >= 1
    ensures OwnedCount(n, total, total) == n
    decreases n
  {
    if n == 0 {
      OwnedCountEmpty(total, total);
    } else {
      OwnedCountAll(n - 1, total);
      OwnedCountStep(n - 1, total, total);
      ModBelow(n - 1, total, total);
    }
  }

  lemma {:induction false} OwnedCountEmpty(total: int, ranks: nat)
    requires total >= 1
    ensures OwnedCount(0, total, ranks) == 0
    decreases ranks
  {
    if ranks > 0 {
      OwnedCountEmpty(total, ranks - 1);
    }
  }

  /** The workers `0 .. total - 1`, computing their shares independently,
      cover every line exactly once: every line has an owner among them, no
      line has two owners, other ranks own nothing, and the shares add up to
      the number of lines. */
  lemma PartitionCover(n: nat, total: int)
    requires total >= 1
    ensures forall i :: 0 <= i < n ==> 0 <= Mod(i, total) < total && i in Owned(n, Mod(i, total), total)
    ensures forall r1, r2, i :: i in Owned(n, r1, total) && i in Owned(n, r2, total) ==> r1 == r2
    ensures forall r :: r < 0 || r >= total ==> Owned(n, r, total) == []
    ensures OwnedCount(n, total, total) == n
  {
    OwnedCountAll(n, total);
    forall r | r < 0 || r >= total
      ensures Owned(n, r, total) == []
    {
      OwnedOutOfRange(n, r, total);
    }
  }

  lemma {:induction false} OwnedOutOfRange(n: nat, r: int, total: int)
    requires total >= 1 && (r < 0 || r >= total)
    ensures Owned(n, r, total) == []
    decreases n
  {
    if n > 0 {
      OwnedOutOfRange(n - 1, r, total);
      ModBelow(n - 1, r, total);
      assert Owned(n, r, total) == Owned(n - 1, r, total) + [];
    }
  }

  lemma ModBelow(a: int, r: int, total: int)
    requires total >= 1 && (r < 0 || r >= total)
    ensures Mod(a, total) != r
    ensures Mod(a, total) < total
  {
  }

  // ------------------------------------------------------ batch windows

  function NumWindows(len: nat, size: nat): nat
    requires size > 0
  {
    (len + size - 1) / size
  }

  lemma WindowBounds(len: nat, size: nat, k: nat)
    requires size > 0
    ensures k < NumWindows(len, size) <==> k * size < len
  {
    var q := NumWindows(len, size);
    var r := (len + size - 1) % size;
    assert len + size - 1 == q * size + r;
    if k < q {
      MulLeq(k + 1, q, size);
      assert (k + 1) * size == k * size + size;
    } else {
      MulLeq(q, k, size);
    }
  }

  /** `idxs[i : min(i + size, len(idxs))]` for the window starting at `i = k * size`. */
  function Window<T>(idxs: seq<T>, size: nat, k: nat): (w: seq<T>)
    requires size > 0 && k < NumWindows(|idxs|, size)
    ensures 0 < |w| <= size
  {
    var start := k * size;
    WindowBounds(|idxs|, size, k);
    assert start < |idxs|;
    idxs[start .. Min(start + size, |idxs|)]
  }

  /** `for i in range(0, len(idxs), size)`: the step must not be zero, and a
      negative step gives no window at all. */
  function Windows<T>(idxs: seq<T>, size: int): (r: Result<seq<seq<T>>, Exception>)
    ensures r.Failure? <==> size == 0
    ensures r.Failure? ==> r.error == ValueError
    ensures size < 0 ==> r == Success([])
    ensures size > 0 ==> r.Success? && forall k :: 0 <= k < |r.value| ==> 0 < |r.value[k]| <= size
  {
    if size == 0 then Failure(ValueError)
    else if size < 0 then Success([])
    else Success(seq(NumWindows(|idxs|, size), k requires 0 <= k < NumWindows(|idxs|, size) =>
                   Window(idxs, size, k)))
  }

  /** Window `k` is the slice of `idxs` from `k * size` to the next multiple. */
  lemma WindowIsSlice<T>(idxs: seq<T>, size: nat, k: nat)
    requires size > 0 && k < NumWindows(|idxs|, size)
    ensures k * size < |idxs|
    ensures Window(idxs, size, k) == idxs[k * size .. Min(k * size + size, |idxs|)]
  {
    WindowBounds(|idxs|, size, k);
  }

  lemma {:induction false} WindowsPrefix<T>(idxs: seq<T>, size: nat, ws: seq<seq<T>>, k: nat)
    requires size > 0 && Windows(idxs, size) == Success(ws)
    requires k <= |ws|
    ensures Flatten(ws[..k]) == idxs[..Min(k * size, |idxs|)]
    decreases k
  {
    if k == 0 {
      assert ws[..0] == [];
    } else {
      WindowsPrefix(idxs, size, ws, k - 1);
      WindowAt(idxs, size, ws, k - 1);
      var start: int := (k - 1) * size;
      var w := ws[k - 1];
      MulSucc(k - 1, size);
      assert ws[..k] == ws[..k - 1] + [w];
      FlattenSnoc(ws[..k - 1], w);
      SliceStep(idxs, start, size, Flatten(ws[..k - 1]), w);
    }
  }

  lemma SliceStep<T>(s: seq<T>, start: nat, size: nat, before: seq<T>, w: seq<T>)
    requires start < |s|
    requires before == s[..Min(start, |s|)]
    requires w == s[start .. Min(start + size, |s|)]
    ensures before + w == s[..Min(start + size, |s|)]
  {
  }

  lemma MulSucc(a: nat, b: nat)
    ensures (a + 1) * b == a * b + b
  {
  }

  /** Window `j` of the list is the slice starting at `j * size`. */
  lemma WindowAt<T>(idxs: seq<T>, size: nat, ws: seq<seq<T>>, j: nat)
    requires size > 0 && Windows(idxs, size) == Success(ws) && j < |ws|
    ensures 0 <= j * size < |idxs|
    ensures ws[j] == idxs[j * size .. Min(j * size + size, |idxs|)]
  {
    WindowIsSlice(idxs, size, j);
  }


  /** The windows start at multiples of the batch size and, concatenated in
      order, give back the worker's index list exactly. */
  lemma WindowsCover<T>(idxs: seq<T>, size: nat)
    requires size > 0
    ensures Windows(idxs, size).Success?
    ensures Flatten(Windows(idxs, size).value) == idxs
    ensures forall k :: 0 <= k < |Windows(idxs, size).value| ==>
              |Flatten(Windows(idxs, size).value[..k])| == k * size
  {
    var ws := Windows(idxs, size).value;
    var n := |ws|;
    WindowsPrefix(idxs, size, ws, n);
    assert ws[..n] == ws;
    WindowBounds(|idxs|, size, n);
    forall k | 0 <= k < n
      ensures |Flatten(ws[..k])| == k * size
    {
      WindowsPrefix(idxs, size, ws, k);
      WindowBounds(|idxs|, size, k);
    }
  }

  // ------------------------------------------------------ bulk body

  /** The action line `{"index": {"_index": index_name}}`. */
  function ActionLine(indexName: string): Json {
    Entry("index", Entry("_index", JStr(indexName)))
  }

  /** The bulk body for a window: an action line before every document. */
  function BulkBody(indexName: string, docs: seq<Json>): (body: seq<Json>)
    ensures |body| == 2 * |docs|
    ensures forall k :: 0 <= k < |docs| ==> body[2 * k] == ActionLine(indexName)
    ensures forall k :: 0 <= k < |docs| ==> body[2 * k + 1] == docs[k]
  {
    if |docs| == 0 then []
    else BulkBody(indexName, docs[..|docs| - 1]) + [ActionLine(indexName), docs[|docs| - 1]]
  }

  /** The documents of a bulk body: every second entry, starting at the second. */
  function Documents(body: seq<Json>): (docs: seq<Json>)
    ensures |docs| == |body| / 2
  {
    seq(|body| / 2, k requires 0 <= k < |body| / 2 => body[2 * k + 1])
  }

  /** Taking the documents back out of a bulk body gives the window's documents. */
  lemma DocumentsOfBulkBody(indexName: string, docs: seq<Json>)
    ensures Documents(BulkBody(indexName, docs)) == docs
  {
  }

  // ------------------------------------------------------ random-access read

  /** `read_line_by_index`: a ValueError for an index outside the offset list;
      otherwise seek to the recorded offset, read through the next newline and
      decode it (`parse` stands for the utf-8 decode plus `json.loads`). */
  function ReadLineByIndex(corpus: seq<byte>, offsets: seq<int>, lineIndex: int,
                           parse: seq<byte> -> Option<Json>): (r: Result<Json, Exception>)
    ensures r == Failure(ValueError) <==> lineIndex < 0 || lineIndex >= |offsets|
    ensures 0 <= lineIndex < |offsets| && offsets[lineIndex] < 0 ==> r == Failure(OSError)
    ensures 0 <= lineIndex < |offsets| && offsets[lineIndex] >= 0 ==>
              match parse(ReadLine(corpus, offsets[lineIndex], Newline))
              case Some(doc) => r == Success(doc)
              case None => r == Failure(DecodeError)
  {
    if lineIndex < 0 || lineIndex >= |offsets| then Failure(ValueError)
    else if offsets[lineIndex] < 0 then Failure(OSError)
    else
      match parse(ReadLine(corpus, offsets[lineIndex], Newline))
      case Some(doc) => Success(doc)
      case None => Failure(DecodeError)
  }

  /** Reading every line of a window in order; the first failing read raises. */
  function ReadWindow(corpus: seq<byte>, offsets: seq<int>, window: seq<nat>,
                      parse: seq<byte> -> Option<Json>): (r: Result<seq<Json>, Exception>)
    ensures r.Success? <==> forall k :: 0 <= k < |window| ==>
              ReadLineByIndex(corpus, offsets, window[k], parse).Success?
    ensures r.Success? ==> |r.value| == |window| && forall k :: 0 <= k < |window| ==>
              ReadLineByIndex(corpus, offsets, window[k], parse) == Success(r.value[k])
  {
    ReadEach(window, i => ReadLineByIndex(corpus, offsets, i, parse))
  }

  /** Applying `read` to every element in order; the first failure raises. */
  function ReadEach(window: seq<nat>, read: nat -> Result<Json, Exception>): (r: Result<seq<Json>, Exception>)
    ensures r.Success? <==> forall k :: 0 <= k < |window| ==> read(window[k]).Success?
    ensures r.Success? ==> |r.value| == |window| && forall k :: 0 <= k < |window| ==> read(window[k]) == Success(r.value[k])
  {
    if |window| == 0 then Success([])
    else
      var n := |window| - 1;
      var init := window[..n];
      assert forall k :: 0 <= k < n ==> init[k] == window[k];
      match ReadEach(init, read)
      case Failure(e) => Failure(e)
      case Success(docs) =>
        match read(window[n])
        case Failure(e) => Failure(e)
        case Success(doc) => Success(docs + [doc])
  }


  // ------------------------------------------------------ partial-failure retry

  /** Whether item `r["items"][idx]` reports a failure: `"error" in item["index"]`. */
  function ItemFailed(item: Json): (r: Result<bool, Exception>)
    ensures item.JObj? && "index" in item.m && item.m["index"].JObj? ==>
              r == Success("error" in item.m["index"].m)
  {
    match Subscript(item, "index")
    case Failure(e) => Failure(e)
    case Success(v) => Contains(v, "error")
  }

  /** The positions of failed items, in ascending order; the first item whose
      status cannot be read raises. */
  function FailedIn(items: seq<Json>): (r: Result<seq<nat>, Exception>)
    ensures r.Success? <==> forall i :: 0 <= i < |items| ==> ItemFailed(items[i]).Success?
    ensures r.Success? ==> StrictlyIncreasing(r.value)
    ensures r.Success? ==> forall k :: 0 <= k < |r.value| ==> r.value[k] < |items|
    ensures r.Success? ==> forall i :: 0 <= i < |items| ==>
              (i in r.value <==> ItemFailed(items[i]) == Success(true))
  {
    if |items| == 0 then Success([])
    else
      var last := |items| - 1;
      match FailedIn(items[..last])
      case Failure(e) => Failure(e)
      case Success(prefix) =>
        match ItemFailed(items[last])
        case Failure(e) => Failure(e)
        case Success(failed) => Success(prefix + (if failed then [last] else []))
  }

  /** `[idx for idx in range(len(items)) if "error" in items[idx]["index"]]`
      for whatever value `r["items"]` holds: a list is scanned; an empty dict
      or string yields nothing; a non-empty dict raises KeyError on `[0]`; a
      non-empty string raises TypeError on `[0]["index"]`; other values have no
      `len`. */
  function FailedPositions(items: Json): (r: Result<seq<nat>, Exception>)
    ensures items.JArr? ==> r == FailedIn(items.a)
  {
    match items
    case JArr(a) => FailedIn(a)
    case JObj(m) => if |m| == 0 then Success([]) else Failure(KeyError)
    case JStr(s) => if |s| == 0 then Success([]) else Failure(TypeError)
    case _ => Failure(TypeError)
  }

  /** Python `s[lo:hi]` for `0 <= lo <= hi`: bounds past the end are clamped. */
  function PySlice<T>(s: seq<T>, lo: nat, hi: nat): (r: seq<T>)
    requires lo <= hi
    ensures hi <= |s| ==> r == s[lo..hi]
    ensures |r| <= hi - lo
  {
    s[Min(lo, |s|)..Min(hi, |s|)]
  }

  /** `new_bulk_body = new_bulk_body + bulk_body[idx * 2 : idx * 2 + 2]` for
      every failed position, in order. */
  function Resubmit(body: seq<Json>, failed: seq<nat>): (nb: seq<Json>)
    ensures |nb| <= 2 * |failed|
    ensures (forall j :: 0 <= j < |failed| ==> 2 * failed[j] + 2 <= |body|) ==>
              |nb| == 2 * |failed| &&
              forall j :: 0 <= j < |failed| ==>
                nb[2 * j] == body[2 * failed[j]] && nb[2 * j + 1] == body[2 * failed[j] + 1]
  {
    if |failed| == 0 then []
    else
      var i := failed[|failed| - 1];
      Resubmit(body, failed[..|failed| - 1]) + PySlice(body, 2 * i, 2 * i + 2)
  }

  datatype Status = Completed | Raised(error: Exception) | Unfinished

  /** `resubmitted` are the bodies sent by the retry step, in order. `Unfinished`
      means the responses ran out while the source would still be retrying. */
  datatype RetryOutcome = RetryOutcome(resubmitted: seq<seq<Json>>, status: Status)

  /** The response reports no errors: `r["errors"] == False`. */
  predicate ReportsClean(r: Json) {
    Subscript(r, "errors").Success? && EqualsFalse(Subscript(r, "errors").value)
  }

  /** The body the retry step sends after response `r` to `body`. */
  function NextBody(body: seq<Json>, r: Json): Result<seq<Json>, Exception> {
    match Subscript(r, "items")
    case Failure(e) => Failure(e)
    case Success(items) =>
      match FailedPositions(items)
      case Failure(e) => Failure(e)
      case Success(failed) => Success(Resubmit(body, failed))
  }

  /** `retry(bulk_body, r)`: stop when the response reports no errors, else
      resubmit the failed pairs and recurse on the backend's next response.
      There is no retry limit and no emptiness check in the script; the client
      library's `bulk` itself refuses an empty body with ValueError before
      anything is sent. */
  function Retry(body: seq<Json>, r: Json, backend: seq<Json>): (o: RetryOutcome)
    ensures o == RetryOutcome([], Completed) <==> ReportsClean(r)
    ensures |o.resubmitted| <= |backend| + 1
    ensures o.status.Unfinished? <==> |o.resubmitted| == |backend| + 1 && o.resubmitted[|backend|] != []
    ensures |o.resubmitted| > 0 ==> !ReportsClean(r) && NextBody(body, r) == Success(o.resubmitted[0])
    ensures !ReportsClean(r) && Subscript(r, "errors").Success? && NextBody(body, r).Success? ==>
              |o.resubmitted| > 0 && o.resubmitted[0] == NextBody(body, r).value
    ensures |o.resubmitted| > 0 && o.resubmitted[|o.resubmitted| - 1] == [] ==> o.status == Raised(ValueError)
    ensures o.status.Completed? ==> |o.resubmitted| <= |backend|
    decreases |backend|
  {
    match RetryRound(body, r)
    case Clean => RetryOutcome([], Completed)
    case Stopped(e) => RetryOutcome([], Raised(e))
    case Resend(nb) =>
      if |nb| == 0 then RetryOutcome([nb], Raised(ValueError))
      else if |backend| == 0 then RetryOutcome([nb], Unfinished)
      else
        var rest := Retry(nb, backend[0], backend[1..]);
        var res := [nb] + rest.resubmitted;
        assert res[0] == nb && |res| == |rest.resubmitted| + 1;
        assert |rest.resubmitted| > 0 ==> res[|res| - 1] == rest.resubmitted[|rest.resubmitted| - 1];
        assert |res| == |backend| + 1 ==> res[|backend|] == rest.resubmitted[|backend| - 1];
        RetryOutcome(res, rest.status)
  }

  /** What one call of `retry` decides from the response it is given. */
  datatype Round = Clean | Stopped(error: Exception) | Resend(next: seq<Json>)

  /** One round of `retry`: a clean response ends it; otherwise the failed
      pairs are collected for resubmission, unless reading the response
      raises first. */
  function RetryRound(body: seq<Json>, r: Json): (d: Round)
    ensures d == Clean <==> ReportsClean(r)
    ensures d.Resend? <==> !ReportsClean(r) && Subscript(r, "errors").Success? && NextBody(body, r).Success?
    ensures d.Resend? ==> NextBody(body, r) == Success(d.next)
    ensures d.Stopped? ==> Subscript(r, "errors").Failure? || NextBody(body, r).Failure?
  {
    match Subscript(r, "errors")
    case Failure(e) => Stopped(e)
    case Success(flag) =>
      if EqualsFalse(flag) then Clean
      else
        match NextBody(body, r)
        case Failure(e) => Stopped(e)
        case Success(nb) => Resend(nb)
  }

  /** The body answered in round `k` of a retry: the original body in round 0,
      the `k`-th resubmission after that. */
  function RoundBody(body: seq<Json>, resubmitted: seq<seq<Json>>, k: nat): seq<Json>
    requires k <= |resubmitted|
  {
    if k == 0 then body else resubmitted[k - 1]
  }

  /** The response examined in round `k`: the one that started the retry, then
      the backend's answers in order. */
  function RoundResponse(r: Json, backend: seq<Json>, k: nat): Json
    requires k <= |backend|
  {
    if k == 0 then r else backend[k - 1]
  }

  /** Resubmission `k` answers a response that still reported errors, by
      resending the failed pairs of the body that response was about. */
  ghost predicate RoundChained(body: seq<Json>, r: Json, backend: seq<Json>, res: seq<seq<Json>>, k: nat) {
    && k < |res|
    && k <= |backend|
    && !ReportsClean(RoundResponse(r, backend, k))
    && NextBody(RoundBody(body, res, k), RoundResponse(r, backend, k)) == Success(res[k])
  }

  /** Every resubmission is chained to the round before it. */
  ghost predicate RoundsChained(body: seq<Json>, r: Json, backend: seq<Json>, res: seq<seq<Json>>) {
    forall k: nat :: k < |res| ==> RoundChained(body, r, backend, res, k)
  }

  /** Only the last resubmission can be empty. */
  ghost predicate EmptyOnlyLast(res: seq<seq<Json>>) {
    forall k :: 0 <= k < |res| - 1 ==> res[k] != []
  }

  /** A completed retry ends on a clean response. */
  ghost predicate CompletedFinal(r: Json, backend: seq<Json>, o: RetryOutcome) {
    o.status.Completed? ==>
      |o.resubmitted| <= |backend| && ReportsClean(RoundResponse(r, backend, |o.resubmitted|))
  }

  /** A raised retry, unless it raised on an empty resubmission, ends on a
      response it could not read. */
  ghost predicate RaisedFinal(body: seq<Json>, r: Json, backend: seq<Json>, o: RetryOutcome) {
    var res := o.resubmitted;
    o.status.Raised? && (|res| == 0 || res[|res| - 1] != []) ==>
      && |res| <= |backend|
      && (Subscript(RoundResponse(r, backend, |res|), "errors").Failure? ||
          NextBody(RoundBody(body, res, |res|), RoundResponse(r, backend, |res|)).Failure?)
  }

  /** How a retry ended, read off its last round. */
  ghost predicate RoundsFinal(body: seq<Json>, r: Json, backend: seq<Json>, o: RetryOutcome) {
    CompletedFinal(r, backend, o) && RaisedFinal(body, r, backend, o)
  }

  /** The end of a retry: `EmptyOnlyLast` and `RoundsFinal`. */
  ghost predicate RoundsEnd(body: seq<Json>, r: Json, backend: seq<Json>, o: RetryOutcome) {
    EmptyOnlyLast(o.resubmitted) && RoundsFinal(body, r, backend, o)
  }

  /** Every round of a retry, as `RoundsChained` and `RoundsEnd` describe it. */
  ghost predicate RetryRounds(body: seq<Json>, r: Json, backend: seq<Json>, o: RetryOutcome) {
    RoundsChained(body, r, backend, o.resubmitted) && RoundsEnd(body, r, backend, o)
  }

  /** Shifting round numbers by one: round `k + 1` of a retry is round `k` of
      the retry started by its first resubmission. */
  lemma RoundShift(body: seq<Json>, r: Json, backend: seq<Json>, nb: seq<Json>, rest: seq<seq<Json>>, k: nat)
    requires |backend| > 0 && k <= |rest|
    ensures RoundBody(body, [nb] + rest, k + 1) == RoundBody(nb, rest, k)
    ensures k < |backend| ==> RoundResponse(r, backend, k + 1) == RoundResponse(backend[0], backend[1..], k)
  {
  }

  /** The first resubmission of a retry that goes on into the backend. */
  lemma RetryStep(body: seq<Json>, r: Json, backend: seq<Json>)
    requires |Retry(body, r, backend).resubmitted| > 0
    requires Retry(body, r, backend).resubmitted[0] != [] && |backend| > 0
    ensures var nb := Retry(body, r, backend).resubmitted[0];
            Retry(body, r, backend) ==
              var rest := Retry(nb, backend[0], backend[1..]);
              RetryOutcome([nb] + rest.resubmitted, rest.status)
  {
  }

  /** Round `k` of the retry started by the first resubmission is round
      `k + 1` of the whole retry. */
  lemma RoundChainedShift(body: seq<Json>, r: Json, backend: seq<Json>, nb: seq<Json>, rest: seq<seq<Json>>, k: nat)
    requires |backend| > 0
    requires RoundChained(nb, backend[0], backend[1..], rest, k)
    ensures RoundChained(body, r, backend, [nb] + rest, k + 1)
  {
    RoundShift(body, r, backend, nb, rest, k);
    assert ([nb] + rest)[k + 1] == rest[k];
  }

  lemma {:induction false} RetryChained(body: seq<Json>, r: Json, backend: seq<Json>)
    ensures RoundsChained(body, r, backend, Retry(body, r, backend).resubmitted)
    decreases |backend|
  {
    var res := Retry(body, r, backend).resubmitted;
    if |res| > 0 {
      assert RoundChained(body, r, backend, res, 0);
    }
    if |res| > 0 && res[0] != [] && |backend| > 0 {
      var nb := res[0];
      RetryStep(body, r, backend);
      var rest := Retry(nb, backend[0], backend[1..]).resubmitted;
      RetryChained(nb, backend[0], backend[1..]);
      assert res == [nb] + rest;
      forall k: nat | 0 < k < |res|
        ensures RoundChained(body, r, backend, res, k)
      {
        assert RoundChained(nb, backend[0], backend[1..], rest, k - 1);
        RoundChainedShift(body, r, backend, nb, rest, k - 1);
      }
    }
  }

  lemma {:induction false} RetryEmptyOnlyLast(body: seq<Json>, r: Json, backend: seq<Json>)
    ensures EmptyOnlyLast(Retry(body, r, backend).resubmitted)
    decreases |backend|
  {
    var res := Retry(body, r, backend).resubmitted;
    if |res| > 0 && res[0] != [] && |backend| > 0 {
      var nb := res[0];
      RetryStep(body, r, backend);
      var rest := Retry(nb, backend[0], backend[1..]).resubmitted;
      RetryEmptyOnlyLast(nb, backend[0], backend[1..]);
      assert res == [nb] + rest;
      forall k | 0 < k < |res| - 1
        ensures res[k] != []
      {
        assert res[k] == rest[k - 1];
      }
    }
  }

  lemma {:induction false} RetryCompletedFinal(body: seq<Json>, r: Json, backend: seq<Json>)
    ensures CompletedFinal(r, backend, Retry(body, r, backend))
    decreases |backend|
  {
    match RetryRound(body, r)
    case Clean =>
      assert RoundResponse(r, backend, 0) == r;
    case Stopped(e) =>
    case Resend(nb) =>
      if |nb| > 0 && |backend| > 0 {
        var rest := Retry(nb, backend[0], backend[1..]);
        RetryCompletedFinal(nb, backend[0], backend[1..]);
        if rest.status.Completed? {
          RoundShift(body, r, backend, nb, rest.resubmitted, |rest.resubmitted|);
        }
      }
  }

  lemma {:induction false} RetryRaisedFinal(body: seq<Json>, r: Json, backend: seq<Json>)
    ensures RaisedFinal(body, r, backend, Retry(body, r, backend))
    decreases |backend|
  {
    match RetryRound(body, r)
    case Clean =>
    case Stopped(e) =>
      assert RoundResponse(r, backend, 0) == r && RoundBody(body, [], 0) == body;
    case Resend(nb) =>
      if |nb| > 0 && |backend| > 0 {
        var rest := Retry(nb, backend[0], backend[1..]);
        var res := [nb] + rest.resubmitted;
        RetryRaisedFinal(nb, backend[0], backend[1..]);
        assert Retry(body, r, backend) == RetryOutcome(res, rest.status);
        if rest.status.Raised? && (|rest.resubmitted| == 0 || rest.resubmitted[|rest.resubmitted| - 1] != []) {
          RoundShift(body, r, backend, nb, rest.resubmitted, |rest.resubmitted|);
        }
        if |rest.resubmitted| > 0 {
          assert res[|res| - 1] == rest.resubmitted[|rest.resubmitted| - 1];
        }
      }
  }

  lemma RetryFinal(body: seq<Json>, r: Json, backend: seq<Json>)
    ensures RoundsFinal(body, r, backend, Retry(body, r, backend))
  {
    RetryCompletedFinal(body, r, backend);
    RetryRaisedFinal(body, r, backend);
  }

  /** The end of every retry. */
  lemma RetryEnds(body: seq<Json>, r: Json, backend: seq<Json>)
    ensures RoundsEnd(body, r, backend, Retry(body, r, backend))
  {
    RetryEmptyOnlyLast(body, r, backend);
    RetryFinal(body, r, backend);
  }

  /** A retry keeps resubmitting while the responses report errors, each
      round built from the previous round's body and response. */
  lemma RetryChain(body: seq<Json>, r: Json, backend: seq<Json>)
    ensures RetryRounds(body, r, backend, Retry(body, r, backend))
  {
    RetryChained(body, r, backend);
    RetryEnds(body, r, backend);
  }

  /** In every round, including the first, the retry body holds exactly the
      pairs whose item failed in that round's response: a document the
      cluster accepted is never sent again. */
  lemma RetryResendsOnlyFailed(body: seq<Json>, r: Json, backend: seq<Json>, k: nat, items: seq<Json>)
    ensures var o := Retry(body, r, backend);
            k < |o.resubmitted| && k <= |backend| &&
            Subscript(RoundResponse(r, backend, k), "items") == Success(JArr(items)) &&
            |RoundBody(body, o.resubmitted, k)| == 2 * |items| ==>
              ResendsFailedPairs(RoundBody(body, o.resubmitted, k), items, o.resubmitted[k])
  {
    var o := Retry(body, r, backend);
    if k < |o.resubmitted| && k <= |backend| &&
       Subscript(RoundResponse(r, backend, k), "items") == Success(JArr(items)) &&
       |RoundBody(body, o.resubmitted, k)| == 2 * |items| {
      RetryChain(body, r, backend);
      assert RoundChained(body, r, backend, o.resubmitted, k);
      var prev := RoundBody(body, o.resubmitted, k);
      assert NextBody(prev, RoundResponse(r, backend, k)) == Success(o.resubmitted[k]);
      assert FailedPositions(JArr(items)) == FailedIn(items);
      ResubmitOnlyFailed(prev, items);
    }
  }

  lemma {:induction false} IncreasingBound(s: seq<nat>, n: nat)
    requires StrictlyIncreasing(s)
    requires forall k :: 0 <= k < |s| ==> s[k] < n
    ensures |s| <= n
    decreases n
  {
    if |s| > 0 {
      var init := s[..|s| - 1];
      assert s[|s| - 1] < n;
      assert forall k :: 0 <= k < |init| ==> init[k] < s[|s| - 1];
      IncreasingBound(init, n - 1);
    }
  }

  /** `nb` resends exactly the pairs of `body` whose item failed, in order:
      two entries per failed item, never a pair whose item succeeded. */
  ghost predicate ResendsFailedPairs(body: seq<Json>, items: seq<Json>, nb: seq<Json>) {
    && FailedIn(items).Success?
    && var failed := FailedIn(items).value;
    && |nb| == 2 * |failed| <= |body|
    && (forall j :: 0 <= j < |failed| ==>
          ItemFailed(items[failed[j]]) == Success(true) && 2 * failed[j] + 1 < |body| &&
          nb[2 * j] == body[2 * failed[j]] && nb[2 * j + 1] == body[2 * failed[j] + 1])
    && (forall i :: 0 <= i < |items| && ItemFailed(items[i]) == Success(false) ==> i !in failed)
  }

  /** On a response with one item per pair of the body, the retry body holds
      exactly the pairs whose item failed, and is never larger than the body. */
  lemma ResubmitOnlyFailed(body: seq<Json>, items: seq<Json>)
    requires |body| == 2 * |items|
    requires FailedIn(items).Success?
    ensures ResendsFailedPairs(body, items, Resubmit(body, FailedIn(items).value))
  {
    var failed := FailedIn(items).value;
    IncreasingBound(failed, |items|);
    forall j | 0 <= j < |failed|
      ensures 2 * failed[j] + 2 <= |body|
    {
      assert failed[j] < |items|;
    }
  }

  /** The bulk response `{"errors": flag, "items": items}`. */
  function Response(flag: bool, items: seq<Json>): Json {
    JObj(map["errors" := JBool(flag), "items" := JArr(items)])
  }

  /** The script has no emptiness check: a response that reports errors
      without any item carrying one still leads to a resubmission, of an empty
      body, which the client refuses with ValueError whatever the backend. */
  lemma EmptyResubmission(body: seq<Json>, backend: seq<Json>)
    ensures Retry(body, Response(true, []), backend) == RetryOutcome([[]], Raised(ValueError))
  {
    var r := Response(true, []);
    assert Subscript(r, "errors") == Success(JBool(true));
    assert Subscript(r, "items") == Success(JArr([]));
    assert NextBody(body, r) == Success([]);
  }

  /** A response rejecting the single document of a one-document body. */
  function RejectOne(cause: Json): Json {
    Response(true, [Entry("index", Entry("error", cause))])
  }

  /** There is no retry limit: while the backend keeps rejecting a document,
      every response is answered by resubmitting the same pair, so the retry
      uses up every response supplied without finishing. */
  lemma {:induction false} PermanentRejectionNeverFinishes(action: Json, doc: Json, cause: Json, backend: seq<Json>)
    requires forall k :: 0 <= k < |backend| ==> backend[k] == RejectOne(cause)
    ensures Retry([action, doc], RejectOne(cause), backend) ==
            RetryOutcome(Copies([action, doc], |backend| + 1), Unfinished)
    decreases |backend|
  {
    var body := [action, doc];
    var r := RejectOne(cause);
    RejectOneResubmits(action, doc, cause);
    if |backend| > 0 {
      PermanentRejectionNeverFinishes(action, doc, cause, backend[1..]);
      assert backend[0] == r;
      var rest := Retry(body, r, backend[1..]);
      assert Retry(body, r, backend) == RetryOutcome([body] + rest.resubmitted, rest.status);
    }
  }

  /** `n` copies of `x`. */
  function Copies<T>(x: T, n: nat): (xs: seq<T>)
    ensures |xs| == n && forall k :: 0 <= k < n ==> xs[k] == x
  {
    if n == 0 then [] else [x] + Copies(x, n - 1)
  }

  /** A response rejecting the single document asks for the same body again. */
  lemma RejectOneResubmits(action: Json, doc: Json, cause: Json)
    ensures Subscript(RejectOne(cause), "errors") == Success(JBool(true))
    ensures NextBody([action, doc], RejectOne(cause)) == Success([action, doc])
  {
    var item := Entry("index", Entry("error", cause));
    var r := RejectOne(cause);
    assert r.m["items"] == JArr([item]);
    assert Subscript(r, "items") == Success(JArr([item]));
    assert ItemFailed(item) == Success(true) by {
      assert item.m["index"].m.Keys == {"error"};
    }
    FailedInOne(item);
    assert FailedPositions(JArr([item])) == Success([0]);
    ResubmitOnePair([action, doc]);
  }

  lemma FailedInOne(item: Json)
    requires ItemFailed(item) == Success(true)
    ensures FailedIn([item]) == Success([0])
  {
    assert [item][..0] == [];
    assert FailedIn([item][..0]) == Success([]);
    assert [item][0] == item;
    assert [] + [0] == [0];
  }

  lemma ResubmitOnePair(body: seq<Json>)
    requires |body| == 2
    ensures Resubmit(body, [0]) == body
  {
    var nb := Resubmit(body, [0]);
    assert |nb| == 2 && nb[0] == body[0] && nb[1] == body[1];
  }



  // ------------------------------------------------------ the worker

  /** One window's first submission and the retry bodies that followed it. */
  datatype Batch = Batch(body: seq<Json>, resubmitted: seq<seq<Json>>)

  datatype WorkerOutcome = WorkerOutcome(batches: seq<Batch>, status: Status)

  /** The loop over windows: read, submit, retry, move on. Each submission
      consumes the next backend response. */
  function SubmitWindows(corpus: seq<byte>, offsets: seq<int>, indexName: string,
                         windows: seq<seq<nat>>, parse: seq<byte> -> Option<Json>,
                         backend: seq<Json>): (o: WorkerOutcome)
    ensures |o.batches| <= |windows|
    ensures o.status.Completed? ==> |o.batches| == |windows|
    ensures forall k :: 0 <= k < |o.batches| ==>
              ReadWindow(corpus, offsets, windows[k], parse).Success? &&
              o.batches[k].body == BulkBody(indexName, ReadWindow(corpus, offsets, windows[k], parse).value)
    decreases |windows|
  {
    if |windows| == 0 then WorkerOutcome([], Completed)
    else
      match ReadWindow(corpus, offsets, windows[0], parse)
      case Failure(e) => WorkerOutcome([], Raised(e))
      case Success(docs) =>
        var body := BulkBody(indexName, docs);
        if |backend| == 0 then WorkerOutcome([Batch(body, [])], Unfinished)
        else
          var retried := Retry(body, backend[0], backend[1..]);
          var batch := Batch(body, retried.resubmitted);
          if !retried.status.Completed? then WorkerOutcome([batch], retried.status)
          else
            var rest := SubmitWindows(corpus, offsets, indexName, windows[1..], parse,
                                      backend[1 + |retried.resubmitted|..]);
            WorkerOutcome([batch] + rest.batches, rest.status)
  }

  /** When every window's lines read and the response to every first
      submission reports no errors, the loop submits each window once,
      never retries, and completes. */
  lemma {:induction false} SubmitWindowsCompletes(corpus: seq<byte>, offsets: seq<int>, indexName: string,
                                                  ws: seq<seq<nat>>, parse: seq<byte> -> Option<Json>,
                                                  backend: seq<Json>)
    requires forall k :: 0 <= k < |ws| ==> ReadWindow(corpus, offsets, ws[k], parse).Success?
    requires |ws| <= |backend| && forall k :: 0 <= k < |ws| ==> ReportsClean(backend[k])
    ensures var o := SubmitWindows(corpus, offsets, indexName, ws, parse, backend);
            && o.status.Completed? && |o.batches| == |ws|
            && forall k :: 0 <= k < |ws| ==> o.batches[k].resubmitted == []
    decreases |ws|
  {
    if |ws| > 0 {
      var tail, later := ws[1..], backend[1..];
      assert forall k :: 0 <= k < |tail| ==> tail[k] == ws[k + 1] && later[k] == backend[k + 1];
      SubmitWindowsCompletes(corpus, offsets, indexName, tail, parse, later);
      var body := SubmitCleanWindow(corpus, offsets, indexName, ws, parse, backend);
      var o := SubmitWindows(corpus, offsets, indexName, ws, parse, backend);
      var rest := SubmitWindows(corpus, offsets, indexName, tail, parse, later);
      forall k | 0 < k < |ws|
        ensures o.batches[k].resubmitted == []
      {
        assert o.batches[k] == rest.batches[k - 1];
      }
    }
  }

  /** A window that reads and whose response is clean is submitted once, and
      the loop moves on to the next window with the next response. */
  lemma SubmitCleanWindow(corpus: seq<byte>, offsets: seq<int>, indexName: string,
                          ws: seq<seq<nat>>, parse: seq<byte> -> Option<Json>, backend: seq<Json>)
    returns (body: seq<Json>)
    requires |ws| > 0 && |backend| > 0
    requires ReadWindow(corpus, offsets, ws[0], parse).Success? && ReportsClean(backend[0])
    ensures SubmitWindows(corpus, offsets, indexName, ws, parse, backend) ==
            var rest := SubmitWindows(corpus, offsets, indexName, ws[1..], parse, backend[1..]);
            WorkerOutcome([Batch(body, [])] + rest.batches, rest.status)
  {
    body := BulkBody(indexName, ReadWindow(corpus, offsets, ws[0], parse).value);
    assert Retry(body, backend[0], backend[1..]) == RetryOutcome([], Completed);
    assert backend[1 + 0..] == backend[1..];
  }

  /** The command-line arguments of bulk.py that the loop uses. */
  datatype WorkerArgs = WorkerArgs(rank: int, total: int, indexName: string, bulkSize: int)

  /** A whole run of bulk.py over the corpus bytes and the offset file text. */
  function RunWorker(args: WorkerArgs, corpus: seq<byte>, offsetText: string,
                     parse: seq<byte> -> Option<Json>, backend: seq<Json>): (o: WorkerOutcome)
    ensures ParseOffsets(offsetText).Failure? ==> o == WorkerOutcome([], Raised(ParseOffsets(offsetText).error))
    ensures ParseOffsets(offsetText).Success? && args.total == 0 && |ParseOffsets(offsetText).value| > 0 ==>
              o == WorkerOutcome([], Raised(ZeroDivisionError))
    ensures ParseOffsets(offsetText).Success? &&
            AllIdxs(|ParseOffsets(offsetText).value|, args.rank, args.total).Success? ==>
              && (args.bulkSize == 0 ==> o == WorkerOutcome([], Raised(ValueError)))
              && (args.bulkSize < 0 ==> o == WorkerOutcome([], Completed))
  {
    match ParseOffsets(offsetText)
    case Failure(e) => WorkerOutcome([], Raised(e))
    case Success(offsets) =>
      match AllIdxs(|offsets|, args.rank, args.total)
      case Failure(e) => WorkerOutcome([], Raised(e))
      case Success(idxs) =>
        match Windows(idxs, args.bulkSize)
        case Failure(e) => WorkerOutcome([], Raised(e))
        case Success(ws) => SubmitWindows(corpus, offsets, args.indexName, ws, parse, backend)
  }

  /** Every index in a window is one of the worker's indices. */
  lemma WindowElement<T>(idxs: seq<T>, size: nat, ws: seq<seq<T>>, k: nat, j: nat)
    requires size > 0 && Windows(idxs, size) == Success(ws) && k < |ws| && j < |ws[k]|
    ensures ws[k][j] in idxs
  {
    WindowAt(idxs, size, ws, k);
    assert ws[k][j] == idxs[k * size + j];
  }

  /** A worker whose offset file parses, whose rank and total select its
      lines, whose every owned line reads, and whose backend answers each of
      its windows without errors, completes without a retry. */
  lemma RunWorkerCompletes(args: WorkerArgs, corpus: seq<byte>, offsetText: string,
                           parse: seq<byte> -> Option<Json>, backend: seq<Json>)
    requires args.bulkSize > 0
    requires ParseOffsets(offsetText).Success?
    requires AllIdxs(|ParseOffsets(offsetText).value|, args.rank, args.total).Success?
    requires forall i :: i in AllIdxs(|ParseOffsets(offsetText).value|, args.rank, args.total).value ==>
               ReadLineByIndex(corpus, ParseOffsets(offsetText).value, i, parse).Success?
    requires NumWindows(|AllIdxs(|ParseOffsets(offsetText).value|, args.rank, args.total).value|, args.bulkSize) <= |backend|
    requires forall k :: 0 <= k < NumWindows(|AllIdxs(|ParseOffsets(offsetText).value|, args.rank, args.total).value|, args.bulkSize) ==>
               ReportsClean(backend[k])
    ensures var o := RunWorker(args, corpus, offsetText, parse, backend);
            o.status.Completed? && forall k :: 0 <= k < |o.batches| ==> o.batches[k].resubmitted == []
  {
    var offsets := ParseOffsets(offsetText).value;
    var idxs := AllIdxs(|offsets|, args.rank, args.total).value;
    var ws := Windows(idxs, args.bulkSize).value;
    forall k | 0 <= k < |ws|
      ensures ReadWindow(corpus, offsets, ws[k], parse).Success?
    {
      forall j | 0 <= j < |ws[k]|
        ensures ReadLineByIndex(corpus, offsets, ws[k][j], parse).Success?
      {
        WindowElement(idxs, args.bulkSize, ws, k, j);
      }
    }
    SubmitWindowsCompletes(corpus, offsets, args.indexName, ws, parse, backend);
  }

  /** The documents of every batch's first submission, in order. */
  function FirstSubmissions(batches: seq<Batch>): seq<Json> {
    Flatten(BatchDocuments(batches))
  }

  function BatchDocuments(batches: seq<Batch>): (ds: seq<seq<Json>>)
    ensures |ds| == |batches|
    ensures forall k :: 0 <= k < |batches| ==> ds[k] == Documents(batches[k].body)
  {
    seq(|batches|, k requires 0 <= k < |batches| => Documents(batches[k].body))
  }

  /** Window-by-window agreement between line indices and documents carries
      over to the concatenations. */
  lemma {:induction false} FlattenReads(corpus: seq<byte>, offsets: seq<int>, parse: seq<byte> -> Option<Json>,
                                        ws: seq<seq<nat>>, ds: seq<seq<Json>>)
    requires |ws| == |ds|
    requires forall k :: 0 <= k < |ws| ==> |ws[k]| == |ds[k]|
    requires forall k, j :: 0 <= k < |ws| && 0 <= j < |ws[k]| ==>
               ReadLineByIndex(corpus, offsets, ws[k][j], parse) == Success(ds[k][j])
    ensures |Flatten(ws)| == |Flatten(ds)|
    ensures forall j :: 0 <= j < |Flatten(ws)| ==>
              ReadLineByIndex(corpus, offsets, Flatten(ws)[j], parse) == Success(Flatten(ds)[j])
    decreases |ws|
  {
    if |ws| > 0 {
      FlattenReads(corpus, offsets, parse, ws[1..], ds[1..]);
      assert forall j :: 0 <= j < |ws[0]| ==> ReadLineByIndex(corpus, offsets, ws[0][j], parse) == Success(ds[0][j]);
      var fw := Flatten(ws);
      var fd := Flatten(ds);
      assert fw == ws[0] + Flatten(ws[1..]);
      assert fd == ds[0] + Flatten(ds[1..]);
      forall j | 0 <= j < |fw|
        ensures ReadLineByIndex(corpus, offsets, fw[j], parse) == Success(fd[j])
      {
        if j >= |ws[0]| {
          assert fw[j] == Flatten(ws[1..])[j - |ws[0]|];
          assert fd[j] == Flatten(ds[1..])[j - |ws[0]|];
        }
      }
    }
  }

  /** The first-generation bodies of a completed loop carry the documents of
      the windows' lines, concatenated in window order. */
  lemma SubmitWindowsDocuments(corpus: seq<byte>, offsets: seq<int>, indexName: string,
                               ws: seq<seq<nat>>, parse: seq<byte> -> Option<Json>, backend: seq<Json>)
    requires SubmitWindows(corpus, offsets, indexName, ws, parse, backend).status.Completed?
    ensures var docs := FirstSubmissions(SubmitWindows(corpus, offsets, indexName, ws, parse, backend).batches);
            && |docs| == |Flatten(ws)|
            && forall j :: 0 <= j < |docs| ==>
                 ReadLineByIndex(corpus, offsets, Flatten(ws)[j], parse) == Success(docs[j])
  {
    var o := SubmitWindows(corpus, offsets, indexName, ws, parse, backend);
    var ds := BatchDocuments(o.batches);
    forall k | 0 <= k < |ws|
      ensures |ws[k]| == |ds[k]|
      ensures forall j :: 0 <= j < |ws[k]| ==> ReadLineByIndex(corpus, offsets, ws[k][j], parse) == Success(ds[k][j])
    {
      WindowDocuments(corpus, offsets, indexName, ws, parse, backend, k);
      assert ds[k] == Documents(o.batches[k].body);
    }
    assert |ds| == |ws|;
    FlattenReads(corpus, offsets, parse, ws, ds);
  }

  lemma WindowDocuments(corpus: seq<byte>, offsets: seq<int>, indexName: string,
                       ws: seq<seq<nat>>, parse: seq<byte> -> Option<Json>, backend: seq<Json>, k: nat)
    requires SubmitWindows(corpus, offsets, indexName, ws, parse, backend).status.Completed?
    requires k < |ws|
    ensures var o := SubmitWindows(corpus, offsets, indexName, ws, parse, backend);
            |o.batches| == |ws| &&
            ReadWindow(corpus, offsets, ws[k], parse) == Success(Documents(o.batches[k].body))
  {
    var o := SubmitWindows(corpus, offsets, indexName, ws, parse, backend);
    var rw := ReadWindow(corpus, offsets, ws[k], parse);
    assert o.batches[k].body == BulkBody(indexName, rw.value);
    DocumentsOfBulkBody(indexName, rw.value);
  }

  /** A worker that completes has submitted, in its first-generation bodies,
      exactly the lines it owns, each once and in ascending line order. */
  lemma WorkerSubmitsOwnedLines(args: WorkerArgs, corpus: seq<byte>, offsetText: string,
                                parse: seq<byte> -> Option<Json>, backend: seq<Json>)
    requires args.bulkSize > 0
    ensures RunWorker(args, corpus, offsetText, parse, backend).status.Completed? ==>
            && ParseOffsets(offsetText).Success?
            && var offsets := ParseOffsets(offsetText).value;
            var docs := FirstSubmissions(RunWorker(args, corpus, offsetText, parse, backend).batches);
            && AllIdxs(|offsets|, args.rank, args.total).Success?
            && var idxs := AllIdxs(|offsets|, args.rank, args.total).value;
            && |docs| == |idxs|
            && forall j :: 0 <= j < |idxs| ==>
                 ReadLineByIndex(corpus, offsets, idxs[j], parse) == Success(docs[j])
  {
    if RunWorker(args, corpus, offsetText, parse, backend).status.Completed? {
      var offsets := ParseOffsets(offsetText).value;
      var idxs := AllIdxs(|offsets|, args.rank, args.total).value;
      WindowsCover(idxs, args.bulkSize);
      var ws := Windows(idxs, args.bulkSize).value;
      assert RunWorker(args, corpus, offsetText, parse, backend) ==
             SubmitWindows(corpus, offsets, args.indexName, ws, parse, backend);
      SubmitWindowsDocuments(corpus, offsets, args.indexName, ws, parse, backend);
    }
  }
}
