/** The payload sizing and the load schedule of the SageMaker Locust script
    (locust_benchmark_sm.py): a sample document is repeated or cut to a
    per-document byte budget, the request holds a whole number of copies,
    and a staged shape decides the user count from the elapsed run time.
    Reading doc.txt, `json.dumps` and the Locust machinery are not modelled. */
module LocustPayload {
  import opened Wrappers
  import opened Exceptions
  import opened PyInt
  import opened TextLines

  // ------------------------------------------------------ UTF-8

  /** The number of bytes UTF-8 spends on one code point. */
  function Utf8Len(c: char): (n: nat)
    ensures 1 <= n <= 4
  {
    var cp := c as int;
    if cp < 0x80 then 1 else if cp < 0x800 then 2 else if cp < 0x1_0000 then 3 else 4
  }

  /** The UTF-8 encoding of one code point. */
  function EncodeChar(c: char): (bs: seq<byte>)
    ensures |bs| == Utf8Len(c)
  {
    var cp := c as int;
    if cp < 0x80 then [cp as byte]
    else if cp < 0x800 then [(0xC0 + cp / 64) as byte, (0x80 + cp % 64) as byte]
    else if cp < 0x1_0000 then
      [(0xE0 + cp / 4096) as byte, (0x80 + (cp / 64) % 64) as byte, (0x80 + cp % 64) as byte]
    else
      [(0xF0 + cp / 262144) as byte, (0x80 + (cp / 4096) % 64) as byte,
       (0x80 + (cp / 64) % 64) as byte, (0x80 + cp % 64) as byte]
  }

  /** `s.encode("utf-8")`. */
  function Encode(s: string): seq<byte> {
    if |s| == 0 then [] else EncodeChar(s[0]) + Encode(s[1..])
  }

  lemma {:induction false} EncodeAppend(a: string, b: string)
    ensures Encode(a + b) == Encode(a) + Encode(b)
    decreases |a|
  {
    if |a| > 0 {
      assert (a + b)[1..] == a[1..] + b;
      EncodeAppend(a[1..], b);
    } else {
      assert a + b == b;
    }
  }

  /** `s * k`, which is empty for `k <= 0`. */
  function Repeat<T>(s: seq<T>, k: int): (r: seq<T>)
    ensures |r| == if k > 0 then k * |s| else 0
    decreases k
  {
    if k <= 0 then [] else s + Repeat(s, k - 1)
  }

  /** Encoding commutes with repetition: `(doc * k).encode() == doc.encode() * k`. */
  lemma {:induction false} EncodeRepeat(s: string, k: int)
    ensures Encode(Repeat(s, k)) == Repeat(Encode(s), k)
    decreases k
  {
    if k > 0 {
      EncodeAppend(s, Repeat(s, k - 1));
      EncodeRepeat(s, k - 1);
    }
  }

  /** `s.encode("utf-8")[:n].decode("utf-8", errors="ignore")` for `n >= 0`:
      the cut keeps the characters whose bytes all fit, and the ignore policy
      drops the bytes of a character the cut split. */
  function FitBytes(s: string, n: nat): (r: string)
    ensures |r| <= |s| && r == s[..|r|]
    decreases |s|
  {
    if |s| == 0 || Utf8Len(s[0]) > n then []
    else [s[0]] + FitBytes(s[1..], n - Utf8Len(s[0]))
  }

  /** The kept text's bytes are a prefix of the whole encoding. */
  lemma FitBytesPrefix(s: string, n: nat)
    ensures Encode(s) == Encode(FitBytes(s, n)) + Encode(s[|FitBytes(s, n)|..])
    ensures Encode(FitBytes(s, n)) <= Encode(s)
  {
    var r := FitBytes(s, n);
    assert s == r + s[|r|..];
    EncodeAppend(r, s[|r|..]);
  }

  /** The kept text fits the budget, and it is the longest prefix that does:
      the next character would not fit. */
  lemma {:induction false} FitBytesBudget(s: string, n: nat)
    ensures |Encode(FitBytes(s, n))| <= n
    ensures |FitBytes(s, n)| < |s| ==> |Encode(FitBytes(s, n))| + Utf8Len(s[|FitBytes(s, n)|]) > n
    decreases |s|
  {
    if |s| > 0 && Utf8Len(s[0]) <= n {
      var c := Utf8Len(s[0]);
      FitBytesBudget(s[1..], n - c);
      var t := FitBytes(s[1..], n - c);
      var r := FitBytes(s, n);
      assert r == [s[0]] + t;
      EncodeAppend([s[0]], t);
      assert Encode([s[0]]) == EncodeChar(s[0]) + Encode([]);
      if |r| < |s| {
        assert s[1..][|t|] == s[|r|];
      }
    }
  }

  /** Less than one character's worth (under 4 bytes) of budget is lost, and
      a text whose encoding fits is kept entirely. */
  lemma FitBytesSpec(s: string, n: nat)
    ensures |Encode(FitBytes(s, n))| <= n
    ensures |FitBytes(s, n)| < |s| ==> n - |Encode(FitBytes(s, n))| < 4
    ensures |Encode(s)| <= n ==> FitBytes(s, n) == s
  {
    var r := FitBytes(s, n);
    FitBytesBudget(s, n);
    FitBytesPrefix(s, n);
    if |r| < |s| {
      var rest := s[|r|..];
      assert Encode(rest) == EncodeChar(rest[0]) + Encode(rest[1..]);
    }
  }

  /** A cut that falls on a character boundary keeps exactly the characters
      before it, byte for byte. */
  lemma {:induction false} FitBytesAtBoundary(s: string, m: nat)
    requires m <= |s|
    ensures FitBytes(s, |Encode(s[..m])|) == s[..m]
    ensures |Encode(FitBytes(s, |Encode(s[..m])|))| == |Encode(s[..m])|
    decreases m
  {
    if m > 0 {
      var c := Utf8Len(s[0]);
      assert s[..m] == [s[0]] + s[1..][..m - 1];
      EncodeAppend([s[0]], s[1..][..m - 1]);
      assert Encode([s[0]]) == EncodeChar(s[0]) + Encode([]);
      FitBytesAtBoundary(s[1..], m - 1);
    }
  }

  // ------------------------------------------------------ payload

  /** Python `b[:n]`'s length for a sequence of length `len`: a negative end
      counts from the back, and the result is clamped to the sequence. */
  function SliceEnd(n: int, len: nat): (e: nat)
    ensures e <= len
    ensures 0 <= n ==> e == Min(n, len)
    ensures n < 0 ==> e == if len + n > 0 then len + n else 0
  {
    if n >= 0 then Min(n, len) else if len + n > 0 then len + n else 0
  }

  /** The list of documents the request carries, before `json.dumps`. */
  datatype Payload = Payload(document: string, docCount: int, documents: seq<string>)

  /** `generate_payload_from_doc`: bring the sample document to the
      per-document budget, by repeating it (ceiling of budget over size) and
      cutting, or by cutting alone; then check that the request size is a
      multiple of the document size and make that many copies. */
  function GeneratePayload(doc: string, sizePerDocKb: int, requestSizeKb: int): (r: Result<Payload, Exception>)
    ensures sizePerDocKb == 0 ==> r == Failure(ZeroDivisionError)
    ensures 0 < sizePerDocKb && |Encode(doc)| == 0 ==> r == Failure(ZeroDivisionError)
    ensures sizePerDocKb != 0 && (|Encode(doc)| > 0 || sizePerDocKb < 0) ==>
              (r.Failure? <==> Mod(requestSizeKb, sizePerDocKb) != 0)
    ensures r.Failure? ==> r.error == ZeroDivisionError || r.error == ValueError
    ensures r.Success? ==>
              && r.value.docCount == FloorDiv(requestSizeKb, sizePerDocKb)
              && r.value.documents == Repeat([r.value.document], r.value.docCount)
  {
    var sizePerDocBytes := sizePerDocKb * 1024;
    var current := |Encode(doc)|;
    var adjusted :-
      if current < sizePerDocBytes then
        if current == 0 then Failure(ZeroDivisionError)
        else
          var repeatCount := FloorDiv(sizePerDocBytes + current - 1, current);
          Success(FitBytes(Repeat(doc, repeatCount), sizePerDocBytes))
      else
        Success(FitBytes(doc, SliceEnd(sizePerDocBytes, current)));
    if sizePerDocKb == 0 then Failure(ZeroDivisionError)
    else
      var docCount := FloorDiv(requestSizeKb, sizePerDocKb);
      if Mod(requestSizeKb, sizePerDocKb) != 0 then Failure(ValueError)
      else Success(Payload(adjusted, docCount, Repeat([adjusted], docCount)))
  }

  /** The repeat count is the ceiling of the budget over the document's size:
      that many copies reach the budget, one fewer falls short. */
  lemma RepeatCountIsCeiling(size: int, current: int)
    requires 0 < current < size
    ensures var k := FloorDiv(size + current - 1, current);
            k >= 1 && k * current >= size && (k - 1) * current < size
  {
  }

  /** The adjusted document when the sample is shorter than the budget: the
      characters of the repeated sample whose bytes fit the budget. Its bytes
      are a prefix of the repeated sample's bytes, at most the budget, and
      short of it by less than one character; exactly the budget when the cut
      splits no character. */
  lemma PaddedDocument(doc: string, sizePerDocKb: int, requestSizeKb: int)
    requires 0 < |Encode(doc)| < sizePerDocKb * 1024
    requires Mod(requestSizeKb, sizePerDocKb) == 0
    ensures GeneratePayload(doc, sizePerDocKb, requestSizeKb).Success?
    ensures var budget := sizePerDocKb * 1024;
            var k := FloorDiv(budget + |Encode(doc)| - 1, |Encode(doc)|);
            var d := GeneratePayload(doc, sizePerDocKb, requestSizeKb).value.document;
            && d == FitBytes(Repeat(doc, k), budget)
            && d <= Repeat(doc, k)
            && Encode(d) <= Repeat(Encode(doc), k)
            && budget - 4 < |Encode(d)| <= budget
            && (forall m :: 0 <= m <= |Repeat(doc, k)| && |Encode(Repeat(doc, k)[..m])| == budget ==>
                  |Encode(d)| == budget)
  {
    var budget := sizePerDocKb * 1024;
    var current := |Encode(doc)|;
    var k := FloorDiv(budget + current - 1, current);
    RepeatCountIsCeiling(budget, current);
    var full := Repeat(doc, k);
    var d := FitBytes(full, budget);
    EncodeRepeat(doc, k);
    FitBytesSpec(full, budget);
    FitBytesPrefix(full, budget);
    assert |Encode(full)| == k * current >= budget;
    if |d| == |full| {
      assert d == full;
    }
    forall m | 0 <= m <= |full| && |Encode(full[..m])| == budget
      ensures |Encode(d)| == budget
    {
      FitBytesAtBoundary(full, m);
    }
  }

  /** The adjusted document when the sample is at least the budget: a prefix
      of the sample that fits, short of the budget by less than a character,
      and exactly the budget when the cut splits no character. */
  lemma TruncatedDocument(doc: string, sizePerDocKb: int, requestSizeKb: int)
    requires 0 < sizePerDocKb && sizePerDocKb * 1024 <= |Encode(doc)|
    requires Mod(requestSizeKb, sizePerDocKb) == 0
    ensures GeneratePayload(doc, sizePerDocKb, requestSizeKb).Success?
    ensures var budget := sizePerDocKb * 1024;
            var d := GeneratePayload(doc, sizePerDocKb, requestSizeKb).value.document;
            && d <= doc
            && Encode(d) <= Encode(doc)
            && budget - 4 < |Encode(d)| <= budget
            && (forall m :: 0 <= m <= |doc| && |Encode(doc[..m])| == budget ==> |Encode(d)| == budget)
  {
    var budget := sizePerDocKb * 1024;
    var d := FitBytes(doc, budget);
    FitBytesSpec(doc, budget);
    FitBytesPrefix(doc, budget);
    if |d| == |doc| {
      assert d == doc;
    }
    forall m | 0 <= m <= |doc| && |Encode(doc[..m])| == budget
      ensures |Encode(d)| == budget
    {
      FitBytesAtBoundary(doc, m);
    }
  }

  // ------------------------------------------------------ load shape

  datatype Stage = Stage(duration: int, users: int, spawnRate: int)

  /** The schedule the shape class declares. */
  const DefaultStages: seq<Stage> := [Stage(5, 10, 5), Stage(30, 10, 10)]

  /** The position of the first stage, in list order, whose duration is
      still ahead of the run time. */
  function FirstStage(stages: seq<Stage>, runTime: real): (i: Option<nat>)
    ensures i.None? <==> forall j :: 0 <= j < |stages| ==> runTime >= stages[j].duration as real
    ensures i.Some? ==> i.value < |stages| && runTime < stages[i.value].duration as real
    ensures i.Some? ==> forall j :: 0 <= j < i.value ==> runTime >= stages[j].duration as real
    decreases |stages|
  {
    if |stages| == 0 then None
    else if runTime < stages[0].duration as real then Some(0)
    else
      match FirstStage(stages[1..], runTime)
      case None => None
      case Some(j) =>
        assert forall k :: 1 <= k < j + 1 ==> stages[k] == stages[1..][k - 1];
        Some(j + 1)
  }

  /** `StagesShape.tick`: the `(users, spawn_rate)` of the first stage whose
      duration is still ahead of the run time; `None` (stop the test) once
      every duration has passed. Durations are absolute cut-offs, not
      lengths of consecutive stages. */
  function Tick(stages: seq<Stage>, runTime: real): (r: Option<(int, int)>)
    ensures r.None? <==> forall j :: 0 <= j < |stages| ==> runTime >= stages[j].duration as real
    ensures r.Some? ==> (FirstStage(stages, runTime).Some? &&
              var i := FirstStage(stages, runTime).value;
              r.value == (stages[i].users, stages[i].spawnRate))
  {
    match FirstStage(stages, runTime)
    case None => None
    case Some(i) => Some((stages[i].users, stages[i].spawnRate))
  }

  /** The declared schedule: 10 users spawning at 5 per second before second
      5, 10 users at 10 per second until second 30, then stop. */
  lemma DefaultSchedule(t: real)
    ensures t < 5.0 ==> Tick(DefaultStages, t) == Some((10, 5))
    ensures 5.0 <= t < 30.0 ==> Tick(DefaultStages, t) == Some((10, 10))
    ensures 30.0 <= t ==> Tick(DefaultStages, t) == None
  {
    assert DefaultStages[1..] == [Stage(30, 10, 10)];
    assert DefaultStages[1..][1..] == [];
  }
}
