/** The orchestrator of the partitioned bulk load (run_bulk.py): it builds the
    offset index of the corpus when none exists yet, writes it one decimal
    offset per line, and launches one bulk.py worker per rank. Process
    supervision and signal handling are not modelled; the file system is the
    corpus bytes plus a flag saying whether the offset file already exists. */
module RunBulk {
  import opened Wrappers
  import opened PyInt
  import opened JsonValue
  import opened TextLines
  import opened Bulk

  // ------------------------------------------------------ offset index

  /** The lines of the offset file: each offset in decimal, then "\n". */
  function OffsetLines(offsets: seq<int>): (ls: seq<string>)
    ensures |ls| == |offsets|
    ensures forall k :: 0 <= k < |offsets| ==> ls[k] == IntToDecimal(offsets[k]) + "\n"
  {
    seq(|offsets|, k requires 0 <= k < |offsets| => IntToDecimal(offsets[k]) + "\n")
  }

  /** The text `f.write(f"{offset}\n")` leaves in the offset file. */
  function SerializeOffsets(offsets: seq<int>): string {
    Flatten(OffsetLines(offsets))
  }

  /** The positions `f.tell()` reports before each line while iterating the
      corpus: line `k` starts where the lines before it end. */
  method TellOffsets<T>(lines: seq<seq<T>>) returns (offsets: seq<nat>)
    requires forall k :: 0 <= k < |lines| ==> |lines[k]| > 0
    ensures offsets == LineStarts(lines)
    ensures |lines| > 0 ==> offsets[0] == 0
    ensures forall k :: 0 <= k < |lines| - 1 ==> offsets[k + 1] == offsets[k] + |lines[k]|
    ensures StrictlyIncreasing(offsets)
  {
    offsets := [];
    var offset: nat := 0;
    for i := 0 to |lines|
      invariant |offsets| == i
      invariant offset == |Flatten(lines[..i])|
      invariant forall k :: 0 <= k < i ==> offsets[k] == |Flatten(lines[..k])|
      invariant forall k :: 0 <= k < i ==> offsets[k] < offset
      invariant StrictlyIncreasing(offsets)
    {
      offsets := offsets + [offset];
      assert lines[..i + 1] == lines[..i] + [lines[i]];
      FlattenSnoc(lines[..i], lines[i]);
      offset := offset + |lines[i]|;
    }
    assert lines[..0] == [];
    forall k | 0 <= k < |lines| - 1
      ensures offsets[k + 1] == offsets[k] + |lines[k]|
    {
      assert lines[..k + 1] == lines[..k] + [lines[k]];
      FlattenSnoc(lines[..k], lines[k]);
    }
  }

  /** Writing `f"{offset}\n"` for every offset, in order; the text reads back
      as the same offsets. */
  method WriteOffsets(offsets: seq<int>) returns (text: string)
    ensures text == SerializeOffsets(offsets)
    ensures ParseOffsets(text) == Success(offsets)
  {
    text := "";
    for i := 0 to |offsets|
      invariant text == SerializeOffsets(offsets[..i])
    {
      SerializeSnoc(offsets, i);
      text := text + (IntToDecimal(offsets[i]) + "\n");
    }
    assert offsets[..|offsets|] == offsets;
    OffsetFileRoundTrip(offsets);
  }

  lemma SerializeSnoc(offsets: seq<int>, i: nat)
    requires i < |offsets|
    ensures SerializeOffsets(offsets[..i + 1]) == SerializeOffsets(offsets[..i]) + (IntToDecimal(offsets[i]) + "\n")
  {
    assert OffsetLines(offsets[..i + 1]) == OffsetLines(offsets[..i]) + [IntToDecimal(offsets[i]) + "\n"];
    FlattenSnoc(OffsetLines(offsets[..i]), IntToDecimal(offsets[i]) + "\n");
  }

  /** `create_offset_file`: iterate the corpus line by line in binary mode,
      recording `f.tell()` before each line; then write the offsets out and
      return how many lines there were. Seeking to any recorded offset and
      reading one line gives back exactly that line of the corpus. */
  method CreateOffsetFile(corpus: seq<byte>) returns (offsets: seq<nat>, offsetText: string, total: nat)
    ensures total == |offsets| == |Lines(corpus, Newline)|
    ensures |corpus| == 0 <==> total == 0
    ensures total > 0 ==> offsets[0] == 0
    ensures forall k :: 0 <= k < total - 1 ==> offsets[k + 1] == offsets[k] + |Lines(corpus, Newline)[k]|
    ensures StrictlyIncreasing(offsets)
    ensures forall k :: 0 <= k < total ==> offsets[k] < |corpus|
    ensures forall k :: 0 <= k < total ==> ReadLine(corpus, offsets[k], Newline) == Lines(corpus, Newline)[k]
    ensures offsets == LineStarts(Lines(corpus, Newline))
    ensures ParseOffsets(offsetText) == Success(offsets)
  {
    var lines := Lines(corpus, Newline);
    LinesPartition(corpus, Newline);
    offsets := TellOffsets(lines);
    forall k | 0 <= k < |offsets|
      ensures ReadLine(corpus, offsets[k], Newline) == lines[k]
      ensures offsets[k] < |corpus|
    {
      ReadLineAtLineStart(corpus, Newline, k);
    }
    offsetText := WriteOffsets(offsets);
    total := |offsets|;
  }

  /** Every written offset line is a single, terminated line. */
  lemma OffsetLinesWellFormed(offsets: seq<int>)
    ensures forall k :: 0 <= k < |offsets| ==> IsLine(OffsetLines(offsets)[k], '\n')
    ensures forall k :: 0 <= k < |offsets| ==>
              var l := OffsetLines(offsets)[k]; |l| > 0 && l[|l| - 1] == '\n'
  {
    var ls := OffsetLines(offsets);
    forall k | 0 <= k < |offsets|
      ensures IsLine(ls[k], '\n')
    {
      var d := IntToDecimal(offsets[k]);
      assert forall j :: 0 <= j < |d| ==> d[j] == '-' || IsDigit(d[j]) by {
        if offsets[k] < 0 {
          assert d == "-" + NatToDecimal(-offsets[k]);
          forall j | 0 < j < |d| ensures IsDigit(d[j]) {
            assert d[j] == NatToDecimal(-offsets[k])[j - 1];
          }
        }
      }
      assert forall j :: 0 <= j < |ls[k]| - 1 ==> ls[k][j] == d[j];
    }
  }

  /** One written line, `str(o) + "\n"`, reads back as `o`. */
  lemma ParseOffsetLine(o: int)
    ensures ParseLine(IntToDecimal(o) + "\n") == Some(o)
  {
    var d := IntToDecimal(o);
    ParseIntOfDecimal(o);
    assert !IsSpace(d[0]) && !IsSpace(d[|d| - 1]);
    StripTrailingNewline(d);
  }

  /** Reading the offset file back as bulk.py does (`int(line.strip())` for
      every line) yields exactly the offsets that were written. */
  lemma OffsetFileRoundTrip(offsets: seq<int>)
    ensures ParseOffsets(SerializeOffsets(offsets)) == Success(offsets)
  {
    var ls := OffsetLines(offsets);
    OffsetLinesWellFormed(offsets);
    LinesOfFlatten(ls, '\n');
    forall k | 0 <= k < |ls|
      ensures ParseLine(ls[k]) == Some(offsets[k])
    {
      ParseOffsetLine(offsets[k]);
    }
    ParseEachAll(ls, ParseLine, offsets);
  }

  // ------------------------------------------------------ worker launch

  /** The file the corpus is read from and the file its offset index lives in. */
  function CorpusPath(fileName: string): string {
    fileName + ".jsonl"
  }

  function OffsetPath(fileName: string): string {
    fileName + ".offset"
  }

  /** Each derived path determines the base name it came from. */
  lemma PathsDetermineBase(a: string, b: string)
    ensures CorpusPath(a) == CorpusPath(b) ==> a == b
    ensures OffsetPath(a) == OffsetPath(b) ==> a == b
  {
    if CorpusPath(a) == CorpusPath(b) {
      assert a == CorpusPath(a)[..|a|] && b == CorpusPath(b)[..|b|];
    }
    if OffsetPath(a) == OffsetPath(b) {
      assert a == OffsetPath(a)[..|a|] && b == OffsetPath(b)[..|b|];
    }
  }

  /** The argument vector of the worker for `rank`. */
  function Command(rank: int, totalRanks: int, indexName: string, fileName: string): seq<string> {
    ["python", "bulk.py"] + WorkerArgv(rank, totalRanks, indexName, fileName)
  }

  /** The options passed to the worker for `rank`. */
  function WorkerArgv(rank: int, totalRanks: int, indexName: string, fileName: string): seq<string> {
    ["--rank", IntToDecimal(rank),
     "--total", IntToDecimal(totalRanks),
     "--index_name", indexName,
     "--file_name", fileName]
  }

  /** The loop of `run_processes` that starts one worker per rank in
      `range(total_ranks)`; a non-positive count starts none. */
  method LaunchCommands(totalRanks: int, indexName: string, fileName: string) returns (cmds: seq<seq<string>>)
    ensures |cmds| == if totalRanks > 0 then totalRanks else 0
    ensures forall r :: 0 <= r < |cmds| ==> cmds[r] == Command(r, totalRanks, indexName, fileName)
  {
    cmds := [];
    var count := if totalRanks > 0 then totalRanks else 0;
    for rank := 0 to count
      invariant |cmds| == rank
      invariant forall r :: 0 <= r < rank ==> cmds[r] == Command(r, totalRanks, indexName, fileName)
    {
      cmds := cmds + [Command(rank, totalRanks, indexName, fileName)];
    }
  }

  /** The value given to `flag` in an argument list of `--flag value` pairs;
      a flag repeated later wins, as with argparse's default store action. */
  function FlagValue(argv: seq<string>, flag: string): (v: Option<string>)
    ensures v.Some? ==> flag in argv && v.value in argv
    decreases |argv|
  {
    if |argv| < 2 then None
    else
      match FlagValue(argv[2..], flag)
      case Some(v) =>
        assert flag in argv[2..] && v in argv[2..];
        Some(v)
      case None => if argv[0] == flag then Some(argv[1]) else None
  }

  /** `--bulk_size`, through `int()`, defaulting to 10. */
  function BulkSizeOf(argv: seq<string>): (size: Option<int>)
    ensures "--bulk_size" !in argv ==> size == Some(10)
  {
    match FlagValue(argv, "--bulk_size")
    case None => Some(10)
    case Some(s) => ParseInt(s)
  }

  /** How bulk.py reads its own command line: `--rank` and `--total` through
      `int()`, the two names verbatim, the batch size from `BulkSizeOf`.
      `None` stands for a missing or unparsable argument. */
  function WorkerArgsOf(cmd: seq<string>): (a: Option<(WorkerArgs, string)>)
    ensures a.Some? ==> |cmd| >= 2 && cmd[..2] == ["python", "bulk.py"]
  {
    if |cmd| < 2 || cmd[..2] != ["python", "bulk.py"] then None else ArgvWorkerArgs(cmd[2..])
  }

  /** The arguments after the script name, read as `WorkerArgsOf` describes. */
  function ArgvWorkerArgs(argv: seq<string>): Option<(WorkerArgs, string)> {
    var rank := FlagValue(argv, "--rank");
    var total := FlagValue(argv, "--total");
    var indexName := FlagValue(argv, "--index_name");
    var fileName := FlagValue(argv, "--file_name");
    if rank.None? || total.None? || indexName.None? || fileName.None? then None
    else
      var r := ParseInt(rank.value);
      var t := ParseInt(total.value);
      var size := BulkSizeOf(argv);
      if r.None? || t.None? || size.None? then None
      else Some((WorkerArgs(r.value, t.value, indexName.value, size.value), fileName.value))
  }

  /** Arguments that give the rank and the rank count in decimal, both names,
      and no batch size are read back as exactly those values. */
  lemma ArgvWorkerArgsOf(argv: seq<string>, r: int, totalRanks: int, indexName: string, fileName: string)
    requires FlagValue(argv, "--rank") == Some(IntToDecimal(r))
    requires FlagValue(argv, "--total") == Some(IntToDecimal(totalRanks))
    requires FlagValue(argv, "--index_name") == Some(indexName)
    requires FlagValue(argv, "--file_name") == Some(fileName)
    requires FlagValue(argv, "--bulk_size") == None
    ensures ArgvWorkerArgs(argv) == Some((WorkerArgs(r, totalRanks, indexName, 10), fileName))
  {
    ParseIntOfCleanDecimal(r);
    ParseIntOfCleanDecimal(totalRanks);
  }

  /** The flag values a worker finds in its launch command. */
  lemma CommandFlags(r: int, totalRanks: int, indexName: string, fileName: string)
    ensures var argv := WorkerArgv(r, totalRanks, indexName, fileName);
            && FlagValue(argv, "--rank") == Some(IntToDecimal(r))
            && FlagValue(argv, "--total") == Some(IntToDecimal(totalRanks))
            && FlagValue(argv, "--index_name") == Some(indexName)
            && FlagValue(argv, "--file_name") == Some(fileName)
            && FlagValue(argv, "--bulk_size") == None
  {
    var argv := WorkerArgv(r, totalRanks, indexName, fileName);
    var flags := ["--rank", "--total", "--index_name", "--file_name", "--bulk_size"];
    assert |flags[0]| == 6 && |flags[1]| == 7 && |flags[2]| == 12 && |flags[3]| == 11 && |flags[4]| == 11;
    assert flags[3][2] != flags[4][2];
    assert |argv| == 8;
    assert argv[6..][2..] == [];
    assert argv[4..][2..] == argv[6..];
    assert argv[2..][2..] == argv[4..];
    FlagValueOfPairs(argv, flags, 4);
  }

  /** With the flags of an argument list pairwise distinct, each flag
      finds its own value. */
  lemma {:induction false} FlagValueOfPairs(argv: seq<string>, flags: seq<string>, pairs: nat)
    requires |argv| == 2 * pairs && pairs <= |flags|
    requires forall j :: 0 <= j < pairs ==> argv[2 * j] == flags[j]
    requires forall j, k :: 0 <= j < k < |flags| ==> flags[j] != flags[k]
    ensures forall j :: 0 <= j < pairs ==> FlagValue(argv, flags[j]) == Some(argv[2 * j + 1])
    ensures forall j :: pairs <= j < |flags| ==> FlagValue(argv, flags[j]) == None
    decreases pairs
  {
    if pairs > 0 {
      var rest := argv[2..];
      FlagValueOfPairs(rest, flags[1..], pairs - 1);
      forall j | 1 <= j < |flags|
        ensures FlagValue(rest, flags[j]) == if j < pairs then Some(argv[2 * j + 1]) else None
      {
        assert flags[1..][j - 1] == flags[j];
        if j < pairs {
          assert rest[2 * (j - 1) + 1] == argv[2 * j + 1];
        }
      }
      assert forall j :: 0 <= j < |rest| / 2 ==> rest[2 * j] == argv[2 * (j + 1)];
      FlagValueAbsent(rest, flags[0]);
    }
  }

  /** A flag at no flag position of the list has no value. */
  lemma {:induction false} FlagValueAbsent(argv: seq<string>, flag: string)
    requires forall j :: 0 <= j < |argv| / 2 ==> argv[2 * j] != flag
    ensures FlagValue(argv, flag) == None
    decreases |argv|
  {
    if |argv| >= 2 {
      assert forall j :: 0 <= j < |argv[2..]| / 2 ==> argv[2..][2 * j] == argv[2 * (j + 1)];
      FlagValueAbsent(argv[2..], flag);
      assert argv[2 * 0] != flag;
    }
  }

  /** Every launched worker reads back its own rank, the rank count, the index
      and file names it was given, and the default batch size of 10. */
  lemma LaunchedWorkerArgs(totalRanks: int, indexName: string, fileName: string, r: int)
    ensures WorkerArgsOf(Command(r, totalRanks, indexName, fileName)) ==
            Some((WorkerArgs(r, totalRanks, indexName, 10), fileName))
  {
    var cmd := Command(r, totalRanks, indexName, fileName);
    var argv := WorkerArgv(r, totalRanks, indexName, fileName);
    CommandFlags(r, totalRanks, indexName, fileName);
    ArgvWorkerArgsOf(argv, r, totalRanks, indexName, fileName);
    assert cmd[..2] == ["python", "bulk.py"] && cmd[2..] == argv;
  }

  /** The line indices the worker started by `cmd` loads, out of `n`. */
  function WorkerShare(cmd: seq<string>, n: nat): seq<nat> {
    if WorkerArgsOf(cmd).None? then []
    else
      var a := WorkerArgsOf(cmd).value.0;
      match AllIdxs(n, a.rank, a.total)
      case Success(idxs) => idxs
      case Failure(_) => []
  }

  /** Together the launched workers load every corpus line exactly once: line
      `i` is in the share of worker `i % total_ranks` and of no other. */
  lemma LaunchCoversEveryLine(totalRanks: int, indexName: string, fileName: string, n: nat)
    requires totalRanks >= 1
    ensures forall i :: 0 <= i < n ==>
              0 <= Mod(i, totalRanks) < totalRanks &&
              i in WorkerShare(Command(Mod(i, totalRanks), totalRanks, indexName, fileName), n)
    ensures forall i, r ::
              0 <= r < totalRanks && i in WorkerShare(Command(r, totalRanks, indexName, fileName), n) ==>
                r == Mod(i, totalRanks)
  {
    forall r | 0 <= r < totalRanks
      ensures forall i :: i in WorkerShare(Command(r, totalRanks, indexName, fileName), n) <==>
                0 <= i < n && Mod(i, totalRanks) == r
    {
      LaunchedWorkerArgs(totalRanks, indexName, fileName, r);
    }
  }

  /** `__main__`: build the offset file only when it does not exist yet, then
      launch the workers. The written file, if any, is returned. */
  method Launch(totalRanks: int, indexName: string, fileName: string, offsetFileExists: bool,
                corpus: seq<byte>) returns (written: Option<string>, cmds: seq<seq<string>>)
    ensures written.Some? <==> !offsetFileExists
    ensures written.Some? ==> ParseOffsets(written.value) == Success(LineStarts(Lines(corpus, Newline)))
    ensures |cmds| == if totalRanks > 0 then totalRanks else 0
    ensures forall r :: 0 <= r < |cmds| ==>
              WorkerArgsOf(cmds[r]) == Some((WorkerArgs(r, totalRanks, indexName, 10), fileName))
  {
    written := None;
    if !offsetFileExists {
      var offsets, text, total := CreateOffsetFile(corpus);
      written := Some(text);
    }
    cmds := LaunchCommands(totalRanks, indexName, fileName);
    forall r | 0 <= r < |cmds|
      ensures WorkerArgsOf(cmds[r]) == Some((WorkerArgs(r, totalRanks, indexName, 10), fileName))
    {
      LaunchedWorkerArgs(totalRanks, indexName, fileName, r);
    }
  }

  /** End to end: with the offset file the launcher writes for the corpus, a
      worker that completes has sent, as its first-generation documents, the
      parsed corpus lines it owns, each once and in ascending line order. */
  lemma IndexedWorkerLoadsOwnedLines(args: WorkerArgs, corpus: seq<byte>, offsetText: string,
                                     parse: seq<byte> -> Option<Json>, backend: seq<Json>)
    requires args.bulkSize > 0
    requires offsetText == SerializeOffsets(LineStarts(Lines(corpus, Newline)))
    ensures RunWorker(args, corpus, offsetText, parse, backend).status.Completed? ==>
            var lines := Lines(corpus, Newline);
            var docs := FirstSubmissions(RunWorker(args, corpus, offsetText, parse, backend).batches);
            && AllIdxs(|lines|, args.rank, args.total).Success?
            && var idxs := AllIdxs(|lines|, args.rank, args.total).value;
            && |docs| == |idxs|
            && forall j :: 0 <= j < |idxs| ==> parse(lines[idxs[j]]) == Some(docs[j])
  {
    var lines := Lines(corpus, Newline);
    OffsetFileRoundTrip(LineStarts(lines));
    WorkerSubmitsOwnedLines(args, corpus, offsetText, parse, backend);
    if RunWorker(args, corpus, offsetText, parse, backend).status.Completed? {
      var docs := FirstSubmissions(RunWorker(args, corpus, offsetText, parse, backend).batches);
      var idxs := AllIdxs(|lines|, args.rank, args.total).value;
      ReadsAtLineStarts(corpus, idxs, docs, parse);
    }
  }

  /** Reads at the true line starts give back the parsed lines themselves. */
  lemma ReadsAtLineStarts(corpus: seq<byte>, idxs: seq<nat>, docs: seq<Json>, parse: seq<byte> -> Option<Json>)
    requires |docs| == |idxs|
    requires forall j :: 0 <= j < |idxs| ==>
               ReadLineByIndex(corpus, LineStarts(Lines(corpus, Newline)), idxs[j], parse) == Success(docs[j])
    ensures forall j :: 0 <= j < |idxs| ==>
              idxs[j] < |Lines(corpus, Newline)| && parse(Lines(corpus, Newline)[idxs[j]]) == Some(docs[j])
  {
    var lines := Lines(corpus, Newline);
    var starts := LineStarts(lines);
    forall j | 0 <= j < |idxs|
      ensures idxs[j] < |lines| && parse(lines[idxs[j]]) == Some(docs[j])
    {
      var i := idxs[j];
      assert ReadLineByIndex(corpus, starts, i, parse) == Success(docs[j]);
      assert i < |starts|;
      ReadLineAtLineStart(corpus, Newline, i);
    }
  }

}
