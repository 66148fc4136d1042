/** Command arguments given as text are moved to temporary files: the value after `-m` or `-p` becomes a file name. */
module TempFiles {
  import opened Decimal
  import opened Pigeonhole
  import opened Wrappers

  type Files = map<string, string>

  predicate IsFlag(arg: string) {
    arg == "-m" || arg == "-p"
  }

  /** The positions whose value the loop consumes, from `i` on and in order. */
  function Consumed(args: seq<string>, i: nat): seq<nat>
    requires i <= |args|
    decreases |args| - i
  {
    if i == |args| then []
    else if IsFlag(args[i]) && i + 1 < |args| then [i + 1] + Consumed(args, i + 2)
    else Consumed(args, i + 1)
  }

  /** How many flags stand directly before position `k`. */
  function FlagsBefore(args: seq<string>, k: nat): nat
    requires k <= |args|
  {
    if k == 0 || !IsFlag(args[k - 1]) then 0 else FlagsBefore(args, k - 1) + 1
  }

  lemma {:induction false} ConsumedFrom(args: seq<string>, i: nat, k: nat)
    requires i <= k < |args| && FlagsBefore(args, i) % 2 == 0
    ensures k in Consumed(args, i) <==> FlagsBefore(args, k) % 2 == 1
    decreases |args| - i
  {
    ConsumedAfter(args, i);
    if IsFlag(args[i]) && i + 1 < |args| {
      assert FlagsBefore(args, i + 1) == FlagsBefore(args, i) + 1;
      if i + 2 <= k {
        ConsumedAfter(args, i + 2);
        ConsumedFrom(args, i + 2, k);
      } else if i + 2 <= |args| {
        ConsumedAfter(args, i + 2);
      }
    } else if i < k {
      ConsumedFrom(args, i + 1, k);
    } else {
      ConsumedAfter(args, i + 1);
    }
  }

  lemma {:induction false} ConsumedAfter(args: seq<string>, i: nat)
    requires i <= |args|
    ensures forall k | k in Consumed(args, i) :: i < k < |args|
    ensures forall a, b | 0 <= a < b < |Consumed(args, i)| :: Consumed(args, i)[a] < Consumed(args, i)[b]
    decreases |args| - i
  {
    if i < |args| {
      if IsFlag(args[i]) && i + 1 < |args| {
        ConsumedAfter(args, i + 2);
        var rest := Consumed(args, i + 2);
        assert forall b | 0 <= b < |rest| :: rest[b] in rest;
      } else {
        ConsumedAfter(args, i + 1);
      }
    }
  }

  /**
    A value is consumed just if an odd number of flags stands directly before it: `-m -m x` consumes the second
    `-m` and leaves `x`, and a flag at the end consumes nothing.
   */
  lemma ConsumedIffOddRun(args: seq<string>, k: nat)
    requires k < |args|
    ensures k in Consumed(args, 0) <==> FlagsBefore(args, k) % 2 == 1
  {
    ConsumedFrom(args, 0, k);
  }

  /** An odd number of flags stands directly before the position. */
  predicate OddRun(args: seq<string>, k: nat)
    requires k <= |args|
  {
    FlagsBefore(args, k) % 2 == 1
  }

  lemma OddRunStep(args: seq<string>, k: nat)
    requires k < |args|
    ensures OddRun(args, k) <==> k > 0 && (args[k - 1] == "-m" || args[k - 1] == "-p") && !OddRun(args, k - 1)
  {
  }

  predicate IsConsumed(args: seq<string>, k: nat) {
    k in Consumed(args, 0)
  }

  lemma ConsumedIsOdd(args: seq<string>, k: nat)
    requires k < |args|
    ensures IsConsumed(args, k) <==> OddRun(args, k)
  {
    ConsumedIffOddRun(args, k);
  }

  /** Consumed is the value after `-m` or `-p`, unless that flag is itself the value of one before. */
  lemma ConsumedAfterFlag(args: seq<string>, k: nat)
    requires k < |args|
    ensures IsConsumed(args, k) <==> k > 0 && (args[k - 1] == "-m" || args[k - 1] == "-p") && !IsConsumed(args, k - 1)
  {
    ConsumedIsOdd(args, k);
    OddRunStep(args, k);
    if k > 0 {
      ConsumedIsOdd(args, k - 1);
    }
  }

  /** The rewritten arguments: the consumed values replaced by `names`, one each and in order, the rest as it was. */
  predicate Rewritten(args: seq<string>, names: seq<string>, newArgs: seq<string>) {
    var positions := Consumed(args, 0);
    && |newArgs| == |args| && |names| == |positions|
    && (forall j | 0 <= j < |names| :: 0 <= positions[j] < |args| && newArgs[positions[j]] == names[j])
    && (forall k | 0 <= k < |args| && k !in positions :: newArgs[k] == args[k])
  }

  /** The files were not there before, are all different, and nothing else has changed. */
  predicate Created(before: Files, names: seq<string>, after: Files) {
    && (forall j | 0 <= j < |names| :: names[j] in after && names[j] !in before)
    && (forall i, j | 0 <= i < j < |names| :: names[i] != names[j])
    && (forall name | name in after :: name in before || name in names)
    && (forall name | name in before :: name in after && after[name] == before[name])
  }

  /** The first `n` files hold the first `n` consumed values. */
  predicate Hold(args: seq<string>, names: seq<string>, n: nat, files: Files) {
    var positions := Consumed(args, 0);
    && n <= |names| && n <= |positions|
    && forall j | 0 <= j < n :: names[j] in files && 0 <= positions[j] < |args| && files[names[j]] == args[positions[j]]
  }

  /** Every named argument is replaced by what its file holds. */
  function Expand(newArgs: seq<string>, names: seq<string>, files: Files): (args: seq<string>)
    requires forall name | name in names :: name in files
    ensures |args| == |newArgs|
  {
    seq(|newArgs|, k requires 0 <= k < |newArgs| => if newArgs[k] in names then files[newArgs[k]] else newArgs[k])
  }

  /**
    Putting the contents back for the names gives the arguments if and only if every argument that was not
    consumed and happens to be one of the names equals what that file holds.
   */
  lemma ExpandGivesArgs(args: seq<string>, names: seq<string>, newArgs: seq<string>, files: Files)
    requires Rewritten(args, names, newArgs) && Hold(args, names, |names|, files)
    ensures Expand(newArgs, names, files) == args
       <==> forall k | 0 <= k < |args| && k !in Consumed(args, 0) && args[k] in names :: files[args[k]] == args[k]
  {
    var positions, expanded := Consumed(args, 0), Expand(newArgs, names, files);
    forall k | 0 <= k < |args| && k in positions
      ensures expanded[k] == args[k]
    {
      var j :| 0 <= j < |positions| && positions[j] == k;
      assert newArgs[k] == names[j];
    }
    if forall k | 0 <= k < |args| && k !in positions && args[k] in names :: files[args[k]] == args[k] {
      forall k | 0 <= k < |args|
        ensures expanded[k] == args[k]
      {
      }
    }
  }

  /** Read position by position, the file at each consumed place holds the argument that stood there. */
  lemma PositionsGiveArgs(args: seq<string>, names: seq<string>, newArgs: seq<string>, files: Files, k: nat)
    requires Rewritten(args, names, newArgs) && Hold(args, names, |names|, files) && k < |args|
    ensures if FlagsBefore(args, k) % 2 == 1 then newArgs[k] in files && files[newArgs[k]] == args[k]
            else newArgs[k] == args[k]
  {
    ConsumedIffOddRun(args, k);
    var positions := Consumed(args, 0);
    if k in positions {
      var j :| 0 <= j < |positions| && positions[j] == k;
      assert newArgs[k] == names[j];
    }
  }

  /** The state of the loop at `i`: the values before `i` are written, and the positions from there on are left. */
  predicate Progress(args: seq<string>, i: nat, names: seq<string>, newArgs: seq<string>, files: Files)
    requires i <= |args| && |newArgs| == i
  {
    var positions := Consumed(args, 0);
    && Hold(args, names, |names|, files) && positions[|names|..] == Consumed(args, i)
    && (forall j | 0 <= j < |names| :: 0 <= positions[j] < i && newArgs[positions[j]] == names[j])
    && (forall k | 0 <= k < i && k !in positions :: newArgs[k] == args[k])
  }

  lemma CreateMore(before: Files, names: seq<string>, after: Files, name: string, text: string)
    requires Created(before, names, after) && name !in after
    ensures Created(before, names + [name], after[name := text])
  {
    var more := names + [name];
    assert forall x | x in more :: x in names || x == name;
    assert name == more[|names|];
    assert forall x | x in names :: x in more;
  }

  lemma HoldMore(args: seq<string>, names: seq<string>, files: Files, name: string, text: string)
    requires Hold(args, names, |names|, files) && name !in files
    ensures Hold(args, names + [name], |names|, files[name := text])
  {
  }

  lemma ValueIsConsumed(args: seq<string>, i: nat, names: seq<string>, newArgs: seq<string>, files: Files)
    requires i + 1 < |args| && IsFlag(args[i]) && |newArgs| == i && Progress(args, i, names, newArgs, files)
    ensures |names| < |Consumed(args, 0)|
  {
    assert Consumed(args, 0)[|names|..] == [i + 1] + Consumed(args, i + 2);
  }

  lemma ConsumeValue(args: seq<string>, i: nat, names: seq<string>, newArgs: seq<string>, files: Files, name: string)
    requires i + 1 < |args| && IsFlag(args[i]) && |newArgs| == i
    requires Progress(args, i, names, newArgs, files) && name !in files
    ensures Progress(args, i + 2, names + [name], newArgs + [args[i], name], files[name := args[i + 1]])
  {
    var positions, n, rest := Consumed(args, 0), |names|, Consumed(args, i + 2);
    HoldMore(args, names, files, name, args[i + 1]);
    assert positions[n..] == [i + 1] + rest;
    assert positions[n] == positions[n..][0] == i + 1;
    assert positions[n + 1..] == positions[n..][1..] == rest;
  }

  lemma KeepArgument(args: seq<string>, i: nat, names: seq<string>, newArgs: seq<string>, files: Files)
    requires i < |args| && !(IsFlag(args[i]) && i + 1 < |args|) && |newArgs| == i
    requires Progress(args, i, names, newArgs, files)
    ensures Progress(args, i + 1, names, newArgs + [args[i]], files)
  {
  }

  lemma AllRewritten(args: seq<string>, names: seq<string>, newArgs: seq<string>, files: Files)
    requires |newArgs| == |args| && Progress(args, |args|, names, newArgs, files)
    ensures Rewritten(args, names, newArgs)
  {
    var positions := Consumed(args, 0);
    assert |positions[|names|..]| == 0;
  }

  lemma RemovedAll(before: Files, names: seq<string>, after: Files)
    requires Created(before, names, after)
    ensures after - (set name | name in names) == before
    ensures after == before <==> names == []
  {
    if names != [] {
      assert names[0] in after && names[0] !in before;
    }
  }

  datatype Error = CreateFailed | WriteFailed

  datatype Result = Ok(tempFiles: seq<string>, newArgs: seq<string>) | Err(error: Error)

  /** A failing system call: the creation of the file for a value, or its writing after some characters. */
  datatype Failure = Create(value: nat) | Write(value: nat, written: nat)

  /** The failing call is one that the arguments lead to. */
  predicate Reached(args: seq<string>, failure: Option<Failure>) {
    failure.Some? && failure.value.value < |Consumed(args, 0)|
  }

  class FileSystem {
    var files: Files
    const tempDir: string

    constructor (files: Files, tempDir: string)
      ensures this.files == files && this.tempDir == tempDir
    {
      this.files := files;
      this.tempDir := tempDir;
    }

    /** A name for a temporary file; the number stands for what the system makes up. */
    function TempName(flag: string, number: nat): string {
      tempDir + "/casbin_temp_" + flag + "_" + Itoa(number) + ".conf"
    }

    lemma TempNamesDistinct(flag: string)
      ensures Distinct((number: nat) => TempName(flag, number))
    {
      forall i: nat, j: nat | TempName(flag, i) == TempName(flag, j)
        ensures i == j
      {
        SameMiddle(tempDir + "/casbin_temp_" + flag + "_", Itoa(i), Itoa(j), ".conf");
        ItoaInjective(i, j);
      }
    }

    static lemma SameMiddle(head: string, a: string, b: string, tail: string)
      requires head + a + tail == head + b + tail
      ensures a == b
    {
      assert (head + a + tail)[|head|..|head| + |a|] == a && (head + b + tail)[|head|..|head| + |b|] == b;
    }

    /** `os.CreateTemp`: tries names until one is new, unless the call fails. */
    method CreateTemp(flag: string, fails: bool) returns (name: Option<string>)
      modifies this
      ensures name.None? <==> fails
      ensures name.None? ==> files == old(files)
      ensures name.Some? ==> name.value !in old(files) && files == old(files)[name.value := ""]
    {
      if fails {
        return None;
      }
      var number := 0;
      TempNamesDistinct(flag);
      ghost var free := FirstFree((k: nat) => TempName(flag, k), files.Keys);
      while TempName(flag, number) in files
        invariant number <= free && files == old(files)
        decreases free - number
      {
        number := number + 1;
      }
      files := files[TempName(flag, number) := ""];
      return Some(TempName(flag, number));
    }

    /** Writes all of the text, or, if the call fails, the first `written` characters. */
    method WriteString(name: string, text: string, fails: bool, written: nat)
      modifies this
      ensures files == old(files)[name := if fails && written < |text| then text[..written] else text]
    {
      files := files[name := if fails && written < |text| then text[..written] else text];
    }

    /** One consumed value: a new file, and in it the value or, where writing fails, what was written of it. */
    method WriteTempFile(flag: string, value: string, failure: Option<Failure>)
        returns (name: Option<string>, ghost text: string)
      modifies this
      ensures name.None? <==> failure.Some? && failure.value.Create?
      ensures name.None? ==> files == old(files)
      ensures name.Some? ==> name.value !in old(files) && files == old(files)[name.value := text]
      ensures failure.None? ==> text == value
    {
      name := CreateTemp(flag, failure.Some? && failure.value.Create?);
      if name.None? {
        return name, "";
      }
      var fails := failure.Some? && failure.value.Write?;
      WriteString(name.value, value, fails, if fails then failure.value.written else 0);
      text := files[name.value];
    }

    /** The value after a flag is moved to a file, at the loop's position `i`. */
    method MoveValue(args: seq<string>, i: nat, ghost start: Files, tempFiles: seq<string>, newArgs: seq<string>,
                     failure: Option<Failure>) returns (tempFile: Option<string>)
      requires i + 1 < |args| && IsFlag(args[i]) && |newArgs| == i
      requires Created(start, tempFiles, files) && Progress(args, i, tempFiles, newArgs, files)
      modifies this
      ensures tempFile.None? <==> failure.Some? && failure.value.Create?
      ensures tempFile.None? ==> files == old(files)
      ensures tempFile.Some? ==>
                && Created(start, tempFiles + [tempFile.value], files)
                && Hold(args, tempFiles + [tempFile.value], |tempFiles|, files)
      ensures failure.None? ==> Progress(args, i + 2, tempFiles + [tempFile.value], newArgs + [args[i], tempFile.value], files)
    {
      ValueIsConsumed(args, i, tempFiles, newArgs, files);
      ghost var text;
      tempFile, text := WriteTempFile(args[i], args[i + 1], failure);
      if tempFile.Some? {
        CreateMore(start, tempFiles, old(files), tempFile.value, text);
        HoldMore(args, tempFiles, old(files), tempFile.value, text);
        ConsumeValue(args, i, tempFiles, newArgs, old(files), tempFile.value);
      }
    }

    /**
      `failure` is the first system call that fails, if any does.  `created` lists every file made, also where
      the result does not: after a failure the files made before it stay and are not reported.
     */
    method ProcessArgsToTempFiles(args: seq<string>, failure: Option<Failure>)
        returns (result: Result, ghost created: seq<string>)
      modifies this
      ensures Created(old(files), created, files)
      ensures if !Reached(args, failure) then
                && result.Ok? && result.tempFiles == created && Rewritten(args, created, result.newArgs)
                && Hold(args, created, |created|, files)
              else if failure.value.Create? then
                && result == Err(CreateFailed) && |created| == failure.value.value
                && Hold(args, created, |created|, files)
              else
                && result == Err(WriteFailed) && |created| == failure.value.value + 1
                && Hold(args, created, |created| - 1, files)
    {
      var tempFiles, newArgs := [], [];
      var i := 0;
      while i < |args|
        invariant i <= |args| && |newArgs| == i
        invariant failure.Some? ==> |tempFiles| <= failure.value.value
        invariant Created(old(files), tempFiles, files)
        invariant Progress(args, i, tempFiles, newArgs, files)
      {
        if IsFlag(args[i]) && i + 1 < |args| {
          ValueIsConsumed(args, i, tempFiles, newArgs, files);
          var fails := failure.Some? && failure.value.value == |tempFiles|;
          var tempFile := MoveValue(args, i, old(files), tempFiles, newArgs, if fails then failure else None);
          if tempFile.None? {
            return Err(CreateFailed), tempFiles;
          }
          if fails {
            return Err(WriteFailed), tempFiles + [tempFile.value];
          }
          tempFiles := tempFiles + [tempFile.value];
          newArgs := newArgs + [args[i], tempFile.value];
          i := i + 1;
        } else {
          KeepArgument(args, i, tempFiles, newArgs, files);
          newArgs := newArgs + [args[i]];
        }
        i := i + 1;
      }
      AllRewritten(args, tempFiles, newArgs, files);
      return Ok(tempFiles, newArgs), tempFiles;
    }

    /** `os.Remove` for each file. */
    method RemoveAll(names: seq<string>)
      modifies this
      ensures files == old(files) - set name | name in names
    {
      for i := 0 to |names|
        invariant files == old(files) - set name | name in names[..i]
      {
        assert names[..i + 1] == names[..i] + [names[i]];
        files := files - {names[i]};
      }
      assert names[..|names|] == names;
    }

    /**
      The file handling of `RunCasbinCommand`: only the files that were reported are removed, so the directory
      is as before if and only if no call fails, or the first to fail is the creation of the first file.
     */
    method RunWithTempFiles(args: seq<string>, failure: Option<Failure>) returns (ok: bool, ghost created: seq<string>)
      modifies this
      ensures ok <==> !Reached(args, failure)
      ensures files == old(files) <==> !Reached(args, failure) || failure == Some(Create(0))
      ensures Created(old(files), if ok then [] else created, files)
    {
      var result;
      result, created := ProcessArgsToTempFiles(args, failure);
      ok := result.Ok?;
      RemovedAll(old(files), created, files);
      RemoveAll(if ok then result.tempFiles else []);
    }
  }
}
