/** The setuid helper that mirrors the data-partition shim and entrypoint to the system.

    Every system call takes one Outcome from an oracle, and when the oracle is used up the
    process is gone: a kill between any two calls is a shorter oracle. A contract that holds
    for every oracle therefore holds at every point of every run. */
module Heal {
  import opened Machine

  const CHUNK := 65536

  /** The files the helper knows; every path is fixed in its source. */
  datatype Name =
    | DataShim                // /data/UserData/schwung/schwung-shim.so
    | LibShim                 // /usr/lib/schwung-shim.so
    | DataEntry               // /data/UserData/schwung/shim-entrypoint.sh
    | SysEntry                // /opt/move/Move
    | HealBin                 // /data/UserData/schwung/bin/schwung-heal
    | HealNew                 // /data/UserData/schwung/bin/schwung-heal.new

  /** A file itself, or its "<name>.heal-tmp". */
  datatype Path = At(name: Name) | Temp(name: Name)

  const SETUID_MODE := 2541    // octal 4755
  const PLAIN_MODE := 493      // octal 0755
  const PRIVATE_MODE := 384    // octal 0600

  datatype File = File(content: Bytes, mode: nat)

  type Files = map<Path, File>

  /** What a system call does: go ahead (moving at most n bytes), be interrupted, or fail. */
  datatype Outcome = Take(n: nat) | Interrupted | Fail

  datatype Status = Done | Failed | Crashed

  /** Bytes a read of at most CHUNK returns when `rest` is left: none only at end of file. */
  function ReadLength(rest: Bytes, n: nat): (k: nat)
    ensures k <= |rest| && k <= CHUNK
    ensures k == 0 <==> rest == []
  {
    Max(Min(n, Min(CHUNK, |rest|)), Min(1, |rest|))
  }

  /** The return value of that read: -1 if it fails. */
  function ReadResult(rest: Bytes, o: Outcome): (k: int)
    ensures -1 <= k <= |rest|
    ensures k == 0 <==> o.Take? && rest == []
    ensures k < 0 <==> !o.Take?
  {
    if o.Take? then ReadLength(rest, o.n) else -1
  }

  /** Two full reads return different lengths only from different contents. */
  lemma DifferentLengths(a: Bytes, b: Bytes, oa: Outcome, ob: Outcome)
    requires ReadResult(a, oa) != ReadResult(b, ob)
    requires oa.Take? && oa.n >= CHUNK && ob.Take? && ob.n >= CHUNK
    ensures a != b
  {
  }

  /** A run of calls none of which was interrupted or failed; reads and writes may be short. */
  predicate Smooth(oracle: seq<Outcome>) {
    forall i :: 0 <= i < |oracle| ==> oracle[i].Take?
  }

  /** Every read and write moves as much as it was asked to. */
  predicate Full(oracle: seq<Outcome>) {
    forall i :: 0 <= i < |oracle| ==> oracle[i].Take? && oracle[i].n >= CHUNK
  }

  // ---- contents_differ on values ----

  datatype Verdict = Same | Different | Unknown

  datatype Compared = Compared(verdict: Verdict, rest: seq<Outcome>, readErrors: bool)

  /** The comparison loop on what is left of two files. A read that fails counts as length -1,
      so two reads failing together end the loop as equal. */
  function Compare(a: Bytes, b: Bytes, oracle: seq<Outcome>): (r: Compared)
    ensures |r.rest| <= |oracle|
    decreases |oracle|
  {
    if |oracle| < 2 then Compared(Unknown, [], false)
    else
      var ra, rb := ReadResult(a, oracle[0]), ReadResult(b, oracle[1]);
      if ra != rb then Compared(Different, oracle[2..], false)
      else if ra <= 0 then Compared(Same, oracle[2..], ra < 0)
      else if a[..ra] != b[..rb] then Compared(Different, oracle[2..], false)
      else Compare(a[ra..], b[rb..], oracle[2..])
  }

  /** "Same" is right whenever it was not reached through two failing reads, however short the reads. */
  lemma {:induction false} SameMeansEqual(a: Bytes, b: Bytes, oracle: seq<Outcome>)
    ensures var r := Compare(a, b, oracle); r.verdict == Same && !r.readErrors ==> a == b
    decreases |oracle|
  {
    if |oracle| >= 2 && oracle[0].Take? && oracle[1].Take? {
      var ra, rb := ReadLength(a, oracle[0].n), ReadLength(b, oracle[1].n);
      if ra == rb > 0 && a[..ra] == b[..rb] {
        SameMeansEqual(a[ra..], b[rb..], oracle[2..]);
        assert a == a[..ra] + a[ra..] && b == b[..rb] + b[rb..];
      }
    }
  }

  /** Two reads failing together do pass for equality, against the promise made beside the code. */
  lemma ReadErrorsPassForSame()
    ensures var r := Compare([1], [2], [Fail, Fail]); r.verdict == Same && r.readErrors
  {
  }

  /** What a read of n bytes moves when at least that much is left. */
  function Clamped(n: nat): (k: nat) {
    Max(1, Min(n, CHUNK))
  }

  /** The read outcomes that can make the loop wrong: some pair of reads fails together, and in
      every pair before it both reads move equally much. */
  predicate WrongSame(oracle: seq<Outcome>) {
    && |oracle| >= 2
    && (|| (!oracle[0].Take? && !oracle[1].Take?)
        || (&& oracle[0].Take? && oracle[1].Take?
            && Clamped(oracle[0].n) == Clamped(oracle[1].n) && WrongSame(oracle[2..])))
  }

  /** Under such outcomes, two different files of one size that pass for equal. */
  lemma {:induction false} WrongSamePair(oracle: seq<Outcome>) returns (a: Bytes, b: Bytes)
    requires WrongSame(oracle)
    ensures |a| == |b| && a != b && Compare(a, b, oracle).verdict == Same
    decreases |oracle|
  {
    if !oracle[0].Take? && !oracle[1].Take? {
      a, b := [0], [1];
    } else {
      var c, d := WrongSamePair(oracle[2..]);
      var k := Clamped(oracle[0].n);
      var read: Bytes := Repeat(0, k);
      a, b := read + c, read + d;
      assert a[..k] == read == b[..k] && a[k..] == c && b[k..] == d;
      assert c != d;
    }
  }

  /** Equal reads of one size from both files, with something left to tell them apart, ask for
      equally much and leave the difference to the rest. */
  lemma EqualReads(a: Bytes, b: Bytes, na: nat, nb: nat)
    requires |a| == |b| && a != b
    requires var k := ReadLength(a, na); k == ReadLength(b, nb) && a[..k] == b[..k]
    ensures var k := ReadLength(a, na); 0 < k == Clamped(na) == Clamped(nb) && a[k..] != b[k..]
  {
    var k := ReadLength(a, na);
    assert a == a[..k] + a[k..] && b == b[..k] + b[k..];
  }

  /** Under any other outcomes, files of one size that pass for equal are equal. */
  lemma {:induction false} WrongOnlyIfWrongSame(a: Bytes, b: Bytes, oracle: seq<Outcome>)
    requires |a| == |b| && a != b && Compare(a, b, oracle).verdict == Same
    ensures WrongSame(oracle)
    decreases |oracle|
  {
    hide Clamped, ReadLength;
    if oracle[0].Take? && oracle[1].Take? {
      EqualReads(a, b, oracle[0].n, oracle[1].n);
      var k := ReadLength(a, oracle[0].n);
      WrongOnlyIfWrongSame(a[k..], b[k..], oracle[2..]);
    }
  }

  /** Exactly which read outcomes break the promise made beside the code, that only identical
      files of one size are reported as equal. */
  lemma WrongSameIff(oracle: seq<Outcome>)
    ensures (exists a: Bytes, b: Bytes :: |a| == |b| && a != b && Compare(a, b, oracle).verdict == Same)
            <==> WrongSame(oracle)
  {
    if WrongSame(oracle) {
      var a, b := WrongSamePair(oracle);
    }
    forall a: Bytes, b: Bytes | |a| == |b| && a != b && Compare(a, b, oracle).verdict == Same
      ensures WrongSame(oracle)
    {
      WrongOnlyIfWrongSame(a, b, oracle);
    }
  }

  /** With full reads the loop decides equality exactly. */
  lemma {:induction false} FullReadsDecide(a: Bytes, b: Bytes, oracle: seq<Outcome>)
    requires Full(oracle) && Compare(a, b, oracle).verdict != Unknown
    ensures var r := Compare(a, b, oracle); !r.readErrors && (r.verdict == Same <==> a == b)
    decreases |oracle|
  {
    var ra, rb := ReadLength(a, oracle[0].n), ReadLength(b, oracle[1].n);
    if ra == rb > 0 && a[..ra] == b[..rb] {
      FullReadsDecide(a[ra..], b[rb..], oracle[2..]);
      assert a == a[..ra] + a[ra..] && b == b[..rb] + b[rb..];
    }
  }

  /** Without failing reads the loop never ends through the failing exit, so "same" is right. */
  lemma {:induction false} SmoothReadsAreSafe(a: Bytes, b: Bytes, oracle: seq<Outcome>)
    requires Smooth(oracle)
    ensures !Compare(a, b, oracle).readErrors
    decreases |oracle|
  {
    if |oracle| >= 2 {
      var ra, rb := ReadLength(a, oracle[0].n), ReadLength(b, oracle[1].n);
      if ra == rb > 0 && a[..ra] == b[..rb] {
        SmoothReadsAreSafe(a[ra..], b[rb..], oracle[2..]);
      }
    }
  }

  // ---- The helper against the file system ----

  class Kernel {
    var files: Files
    var oracle: seq<Outcome>
    ghost var troubled: bool     // some call so far was interrupted or failed
    ghost var short: bool        // some call so far moved less than a full chunk
    ghost var copyFailed: bool   // some CopyAtomic of this run of main returned Failed
    ghost var leftovers: nat     // how many removals of a temporary file failed so far
    ghost const start: seq<Outcome>

    /** No trouble is recorded that the calls made so far did not have. */
    ghost predicate Valid()
      reads this`oracle, this`troubled, this`short
    {
      && (Smooth(start) ==> Smooth(oracle) && !troubled)
      && (Full(start) ==> Full(oracle) && !short)
    }

    constructor (files: Files, oracle: seq<Outcome>)
      ensures this.files == files && this.oracle == oracle && !troubled && !short && !copyFailed && leftovers == 0
      ensures Valid() && start == oracle
    {
      this.files, this.oracle, start := files, oracle, oracle;
      troubled, short, copyFailed, leftovers := false, false, false, 0;
    }

    /** Makes a system call: None means the process no longer exists. */
    method Call() returns (o: Option<Outcome>)
      requires Valid()
      modifies this`oracle, this`troubled, this`short
      ensures Valid()
      ensures old(oracle) == [] ==> o == None && oracle == [] && troubled == old(troubled) && short == old(short)
      ensures old(oracle) != [] ==>
                && o == Some(old(oracle)[0]) && oracle == old(oracle)[1..]
                && troubled == (old(troubled) || !o.value.Take?)
                && short == (old(short) || (o.value.Take? && o.value.n < CHUNK))
    {
      if oracle == [] {
        return None;
      }
      o, oracle := Some(oracle[0]), oracle[1..];
      troubled := troubled || !o.value.Take?;
      short := short || (o.value.Take? && o.value.n < CHUNK);
    }

    /** Everything but dst and its temporary file is as in `before`. */
    ghost predicate FrameKept(before: Files, dst: Name)
      reads this`files
    {
      forall p: Path :: p.name != dst ==> SameFile(before, files, p)
    }

    /** dst itself is as in `before`. */
    ghost predicate Untouched(before: Files, dst: Name)
      reads this`files
    {
      SameFile(before, files, At(dst))
    }

    /** History only accumulates. */
    twostate predicate Onward()
      reads this
    {
      |oracle| <= |old(oracle)| && (old(troubled) ==> troubled) && (old(short) ==> short)
    }

    /** After a failure the temporary file is gone, unless its removal failed as well. */
    twostate predicate CleanedUp(dst: Name)
      reads this
    {
      leftovers == old(leftovers) ==> Temp(dst) !in files
    }

    /** The failure paths: remove the temporary file if that works. */
    method GiveUp(dst: Name) returns (r: Status)
      requires Valid()
      modifies this`files, this`oracle, this`troubled, this`short, this`leftovers
      ensures Valid()
      ensures r == Crashed ==> oracle == []
      ensures r == if old(oracle) == [] then Crashed else Failed
      ensures leftovers == old(leftovers) + if old(oracle) != [] && !old(oracle)[0].Take? then 1 else 0
      ensures r == Failed ==> CleanedUp(dst)
      ensures Onward()
      ensures FrameKept(old(files), dst) && Untouched(old(files), dst)
    {
      hide Valid;
      var o := Call();
      if o.None? {
        return Crashed;
      }
      if o.value.Take? {
        files := files - {Temp(dst)};
      } else {
        leftovers := leftovers + 1;
      }
      r := Failed;
    }

    /** A call of which only matters whether it works. */
    method Try() returns (r: Status)
      requires Valid()
      modifies this`oracle, this`troubled, this`short
      ensures Valid()
      ensures r == Crashed ==> oracle == []
      ensures Onward() && |oracle| == Max(0, |old(oracle)| - 1)
      ensures r == if old(oracle) == [] then Crashed else if old(oracle)[0].Take? then Done else Failed
      ensures r == Failed ==> troubled
    {
      hide Valid;
      var o := Call();
      r := if o.None? then Crashed else if o.value.Take? then Done else Failed;
    }

    /** The same, giving up if it does not. */
    method TryOrGiveUp(dst: Name) returns (r: Status)
      requires Valid()
      modifies this`files, this`oracle, this`troubled, this`short, this`leftovers
      ensures Valid()
      ensures r == Crashed ==> oracle == []
      ensures Onward()
      ensures FrameKept(old(files), dst) && Untouched(old(files), dst)
      ensures r == Done ==> files == old(files) && leftovers == old(leftovers)
      ensures r == Failed ==> troubled && CleanedUp(dst)
    {
      hide Valid;
      r := Try();
      if r == Failed {
        r := GiveUp(dst);
      }
    }

    /** The inner write loop: append one chunk to the temporary file, retrying short and
        interrupted writes. */
    method WriteChunk(dst: Name, chunk: Bytes) returns (r: Status)
      requires Temp(dst) in files
      requires Valid()
      modifies this`files, this`oracle, this`troubled, this`short, this`leftovers
      ensures Valid()
      ensures r == Crashed ==> oracle == []
      ensures Onward()
      ensures FrameKept(old(files), dst) && Untouched(old(files), dst)
      ensures r == Done ==> leftovers == old(leftovers)
      ensures r == Done ==> files == old(files)[Temp(dst) := Extended(old(files[Temp(dst)]), chunk)]
      ensures r == Failed ==> troubled && CleanedUp(dst)
    {
      hide Valid, SameFile;
      var off: nat := 0;
      ghost var f := files[Temp(dst)];
      ExtendNothing(files, dst);
      assert chunk[..0] == [];
      while off < |chunk|
        invariant off <= |chunk| && Valid() && Onward() && leftovers == old(leftovers)
        invariant files == old(files)[Temp(dst) := Extended(f, chunk[..off])]
        decreases |oracle|
      {
        ghost var before := files;
        OnlyTempChanged(old(files), before, dst);
        var o := Call();
        if o.None? {
          return Crashed;
        }
        match o.value
        case Interrupted =>
        case Fail =>
          r := GiveUp(dst);
          SameThroughout(old(files), before, files);
          return;
        case Take(n) =>
          var w := Min(n, |chunk| - off);
          files := files[Temp(dst) := Extended(files[Temp(dst)], chunk[off..off + w])];
          assert chunk[..off + w] == chunk[..off] + chunk[off..off + w];
          ExtendTwice(f, chunk[..off], chunk[off..off + w]);
          off := off + w;
      }
      r := Done;
      assert chunk[..off] == chunk;
      OnlyTempChanged(old(files), files, dst);
    }

    /** One pass of the outer loop: read a chunk of the source from pos on and append it. */
    method CopyChunk(src: Name, dst: Name, pos: nat) returns (r: Status, k: nat)
      requires src != dst && At(src) in files && Temp(dst) in files && pos <= |files[At(src)].content|
      requires Valid()
      modifies this`files, this`oracle, this`troubled, this`short, this`leftovers
      ensures Valid()
      ensures r == Crashed ==> oracle == []
      ensures Onward() && (r == Done ==> |oracle| < |old(oracle)|)
      ensures FrameKept(old(files), dst) && Untouched(old(files), dst)
      ensures r == Done ==>
                var s := old(files)[At(src)].content;
                && pos + k <= |s| && (k == 0 <==> pos == |s|)
                && leftovers == old(leftovers)
                && files == old(files)[Temp(dst) := Extended(old(files)[Temp(dst)], s[pos..pos + k])]
      ensures r == Failed ==> troubled && CleanedUp(dst)
    {
      hide Valid, SameFile;
      k := 0;
      SameAsBefore(files);
      var o := Call();
      if o.None? {
        return Crashed, 0;
      }
      if !o.value.Take? {
        r := GiveUp(dst);
        return;
      }
      var rest := files[At(src)].content[pos..];
      k := ReadLength(rest, o.value.n);
      assert rest[..k] == files[At(src)].content[pos..pos + k];
      r := WriteChunk(dst, rest[..k]);
    }

    /** The outer loop: the source, chunk by chunk, into the temporary file. */
    method CopyContent(src: Name, dst: Name) returns (r: Status)
      requires src != dst && At(src) in files && Temp(dst) in files && files[Temp(dst)].content == []
      requires Valid()
      modifies this`files, this`oracle, this`troubled, this`short, this`leftovers
      ensures Valid()
      ensures r == Crashed ==> oracle == []
      ensures Onward()
      ensures FrameKept(old(files), dst) && Untouched(old(files), dst)
      ensures r == Done ==> leftovers == old(leftovers)
      ensures r == Done ==>
                files == old(files)[Temp(dst) := Extended(old(files[Temp(dst)]), old(files[At(src)].content))]
      ensures r == Failed ==> troubled && CleanedUp(dst)
    {
      hide Valid, SameFile;
      var pos: nat := 0;
      ExtendNothing(files, dst);
      ghost var s, f := files[At(src)].content, files[Temp(dst)];
      assert s[..0] == [];
      while true
        invariant pos <= |s| && Valid() && Onward() && leftovers == old(leftovers)
        invariant files == old(files)[Temp(dst) := Extended(f, s[..pos])]
        decreases |oracle|
      {
        ghost var before := files;
        OnlyTempChanged(old(files), before, dst);
        var k: nat;
        r, k := CopyChunk(src, dst, pos);
        SameThroughout(old(files), before, files);
        if r != Done {
          return;
        }
        assert s[..pos + k] == s[..pos] + s[pos..pos + k];
        ExtendTwice(f, s[..pos], s[pos..pos + k]);
        pos := pos + k;
        if k == 0 {
          assert s[..pos] == s;
          return;
        }
      }
    }

    /** copy_atomic. Whatever fails, and wherever the process ends, dst is either exactly as it
        was or, on success only, a complete copy with its final mode. A failed copy leaves no new
        temporary file unless its removal failed too. */
    method CopyAtomic(src: Name, dst: Name, perms: nat) returns (r: Status)
      requires src != dst
      requires Valid()
      modifies this
      ensures Valid()
      ensures r == Crashed ==> oracle == []
      ensures Onward()
      ensures FrameKept(old(files), dst)
      ensures r != Done ==> Untouched(old(files), dst)
      ensures r == Done ==>
                && At(src) in old(files)
                && At(dst) in files && files[At(dst)] == File(old(files)[At(src)].content, perms)
                && Temp(dst) !in files
      ensures r == Failed ==> troubled || At(src) !in old(files)
      ensures r == Failed ==> CleanedUp(dst) || SameFile(old(files), files, Temp(dst))
      ensures copyFailed == (old(copyFailed) || r == Failed)
    {
      hide Valid, SameFile;
      SameAsBefore(files);
      r := OpenBoth(src, dst);
      ghost var ready := files;
      if r == Done {
        SameFileMeans(old(files), ready, At(src));
        r := CopyAndInstall(src, dst, perms);
        SameThroughout(old(files), ready, files);
      }
      copyFailed := copyFailed || r == Failed;
    }

    /** What follows once both files are open. */
    method CopyAndInstall(src: Name, dst: Name, perms: nat) returns (r: Status)
      requires src != dst && At(src) in files && Temp(dst) in files && files[Temp(dst)].content == []
      requires Valid()
      modifies this`files, this`oracle, this`troubled, this`short, this`leftovers
      ensures Valid()
      ensures r == Crashed ==> oracle == []
      ensures Onward()
      ensures FrameKept(old(files), dst)
      ensures r != Done ==> Untouched(old(files), dst)
      ensures r == Done ==>
                && At(dst) in files && files[At(dst)] == File(old(files)[At(src)].content, perms)
                && Temp(dst) !in files
      ensures r == Failed ==> troubled && CleanedUp(dst)
    {
      hide Valid, SameFile;
      r := CopyContent(src, dst);
      if r == Done {
        ghost var copied := files;
        r := Install(dst, perms);
        SameThroughout(old(files), copied, files);
      }
    }

    /** open src, fstat, open the temporary file. A leftover temporary file is truncated but
        keeps its mode. */
    method OpenBoth(src: Name, dst: Name) returns (r: Status)
      requires src != dst
      requires Valid()
      modifies this`files, this`oracle, this`troubled, this`short
      ensures Valid()
      ensures r == Crashed ==> oracle == []
      ensures Onward()
      ensures FrameKept(old(files), dst) && Untouched(old(files), dst)
      ensures r == Done ==> At(src) in files && Temp(dst) in files && files[Temp(dst)].content == []
      ensures r == Failed ==> files == old(files) && (troubled || At(src) !in old(files))
    {
      hide Valid, SameFile;
      SameAsBefore(files);
      r := Try();
      if r == Done && At(src) !in files {
        return Failed;
      }
      if r == Done {
        r := Try();
      }
      if r == Done {
        r := Try();
      }
      if r == Done {
        var empty := File([], if Temp(dst) in files then files[Temp(dst)].mode else PRIVATE_MODE);
        files := files[Temp(dst) := empty];
        OnlyTempChanged(old(files), files, dst);
      }
    }

    /** fchmod, fsync (whose failure is ignored), close, rename. */
    method Install(dst: Name, perms: nat) returns (r: Status)
      requires Temp(dst) in files
      requires Valid()
      modifies this`files, this`oracle, this`troubled, this`short, this`leftovers
      ensures Valid()
      ensures r == Crashed ==> oracle == []
      ensures Onward()
      ensures FrameKept(old(files), dst)
      ensures r != Done ==> Untouched(old(files), dst)
      ensures r == Done ==>
                && Temp(dst) !in files && At(dst) in files
                && files[At(dst)] == File(old(files)[Temp(dst)].content, perms)
      ensures r == Failed ==> troubled && CleanedUp(dst)
    {
      hide Valid;
      r := Seal(dst, perms);
      if r != Done {
        return;
      }
      r := TryOrGiveUp(dst);
      if r == Done {
        files := files[At(dst) := files[Temp(dst)]] - {Temp(dst)};
      }
    }

    /** All of that but the rename. */
    method Seal(dst: Name, perms: nat) returns (r: Status)
      requires Temp(dst) in files
      requires Valid()
      modifies this`files, this`oracle, this`troubled, this`short, this`leftovers
      ensures Valid()
      ensures r == Crashed ==> oracle == []
      ensures Onward()
      ensures FrameKept(old(files), dst) && Untouched(old(files), dst)
      ensures r == Done ==>
                && files == old(files)[Temp(dst) := old(files)[Temp(dst)].(mode := perms)]
                && leftovers == old(leftovers)
      ensures r == Failed ==> troubled && CleanedUp(dst)
    {
      hide Valid;
      r := TryOrGiveUp(dst);
      if r != Done {
        return;
      }
      files := files[Temp(dst) := files[Temp(dst)].(mode := perms)];
      r := Try();
      if r == Crashed {
        return;
      }
      r := TryOrGiveUp(dst);
    }

    /** contents_differ: Same and Different stand for its 0 and 1, Unknown for a process that
        ended first. */
    method ContentsDiffer(a: Name, b: Name) returns (v: Verdict)
      requires Valid()
      modifies this`oracle, this`troubled, this`short
      ensures Valid()
      ensures v == Unknown ==> oracle == []
      ensures Onward()
      ensures v == Same && !troubled ==> HaveSameContent(files, a, b)
      ensures v == Different && !troubled && !short ==> !HaveSameContent(files, a, b)
      ensures |old(oracle)| >= 2 && old(oracle)[0].Take? && old(oracle)[1].Take? && At(a) in files && At(b) in files ==>
                v == Compare(files[At(a)].content, files[At(b)].content, old(oracle)[2..]).verdict
    {
      hide Valid;
      var o := Call();
      if o.None? {
        return Unknown;
      }
      if !o.value.Take? || At(a) !in files {
        return Different;
      }
      o := Call();
      if o.None? {
        return Unknown;
      }
      if !o.value.Take? || At(b) !in files {
        return Different;
      }
      v := CompareContents(files[At(a)].content, files[At(b)].content);
    }

    /** The comparison loop of contents_differ. */
    method CompareContents(a: Bytes, b: Bytes) returns (v: Verdict)
      requires Valid()
      modifies this`oracle, this`troubled, this`short
      ensures Valid()
      ensures v == Unknown ==> oracle == []
      ensures Onward()
      ensures v == Compare(a, b, old(oracle)).verdict
      ensures v == Same && !troubled ==> a == b
      ensures v == Different && !troubled && !short ==> a != b
    {
      hide Valid, Compare, ReadResult;
      var pos: nat := 0;
      assert a[0..] == a && b[0..] == b;
      while true
        invariant pos <= |a| && pos <= |b| && a[..pos] == b[..pos] && Valid() && Onward()
        invariant Compare(a[pos..], b[pos..], oracle).verdict == Compare(a, b, old(oracle)).verdict
        decreases |oracle|
      {
        CompareStep(a[pos..], b[pos..], oracle);
        var oa := Call();
        if oa.None? {
          return Unknown;
        }
        var ob := Call();
        if ob.None? {
          return Unknown;
        }
        var ra := ReadResult(a[pos..], oa.value);
        var rb := ReadResult(b[pos..], ob.value);
        if ra != rb {
          if oa.value.Take? && oa.value.n >= CHUNK && ob.value.Take? && ob.value.n >= CHUNK {
            DifferentLengths(a[pos..], b[pos..], oa.value, ob.value);
          }
          return Different;
        }
        if ra <= 0 {
          assert ra == 0 ==> a[..pos] == a && b[..pos] == b;
          return Same;
        }
        if a[pos..][..ra] != b[pos..][..rb] {
          return Different;
        }
        SharedPrefixGrows(a, b, pos, ra);
        pos := pos + ra;
      }
    }

    /** needs_copy: None stands for a process that ended first. */
    method NeedsCopy(src: Name, dst: Name) returns (r: Option<bool>)
      requires Valid()
      modifies this`oracle, this`troubled, this`short
      ensures Valid()
      ensures r == None ==> oracle == []
      ensures Onward()
      ensures r.Some? && !r.value && !troubled ==> Mirrored(files, src, dst)
      ensures r.Some? && r.value ==> troubled || At(src) in files
      ensures r.Some? && r.value && !troubled && !short ==> !HaveSameContent(files, src, dst)
    {
      hide Valid;
      var o := Call();
      if o.None? {
        return None;
      }
      if !o.value.Take? || At(src) !in files {
        return Some(false);
      }
      o := Call();
      if o.None? {
        return None;
      }
      if !o.value.Take? || At(dst) !in files {
        return Some(true);
      }
      if |files[At(src)].content| != |files[At(dst)].content| {
        return Some(true);
      }
      var v := ContentsDiffer(src, dst);
      r := match v case Unknown => None case Same => Some(false) case Different => Some(true);
    }

    /** One mirror block of main: copy if needed. */
    method Mirror(src: Name, dst: Name, perms: nat) returns (r: Status)
      requires src != dst
      requires Valid()
      modifies this
      ensures Valid()
      ensures r == Crashed ==> oracle == []
      ensures Onward()
      ensures FrameKept(old(files), dst)
      ensures OldOrCopy(old(files), files, src, dst, perms)
      ensures r == Done && !troubled ==> Mirrored(files, src, dst)
      ensures r == Failed ==> troubled && Untouched(old(files), dst)
      ensures copyFailed == (old(copyFailed) || r == Failed)
      ensures !troubled && !short && Mirrored(old(files), src, dst) ==> files == old(files)
    {
      hide Valid;
      var need := NeedsCopy(src, dst);
      if need.None? {
        return Crashed;
      }
      if !need.value {
        return Done;
      }
      r := CopyAtomic(src, dst, perms);
    }

    /** The self-update block: install a staged helper over the running one and re-execute it. */
    method SelfUpdate() returns (r: Status, again: bool)
      requires Valid()
      modifies this
      ensures Valid()
      ensures r == Crashed ==> oracle == []
      ensures Onward()
      ensures forall p: Path :: p.name != HealBin && p.name != HealNew ==> SameFile(old(files), files, p)
      ensures OldOrCopy(old(files), files, HealNew, HealBin, SETUID_MODE)
      ensures StagedOrInstalled(old(files), files)
      ensures At(HealNew) !in old(files) ==> files == old(files) && !again
      ensures r == Failed ==> troubled && SameFile(old(files), files, At(HealNew)) && Untouched(old(files), HealBin)
      ensures r == Done && !troubled ==> At(HealNew) !in files
      ensures copyFailed == (old(copyFailed) || r == Failed)
      ensures again ==> r == Done
      ensures again ==> |oracle| < |old(oracle)|
    {
      hide Valid;
      again := false;
      var o := Call();
      if o.None? {
        return Crashed, false;
      }
      if !o.value.Take? || At(HealNew) !in files {
        return Done, false;
      }
      r := CopyAtomic(HealNew, HealBin, SETUID_MODE);
      if r != Done {
        return;
      }
      o := Call();
      if o.None? {
        return Crashed, false;
      }
      if o.value.Take? {
        files := files - {At(HealNew)};
      }
      o := Call();
      if o.None? {
        return Crashed, false;
      }
      again := o.value.Take?;
    }

    /** The same for every process that the re-execution starts in turn. */
    method SelfUpdates() returns (st: Status)
      requires Valid() && !copyFailed
      modifies this
      ensures Valid()
      ensures st == Crashed ==> oracle == []
      ensures Onward()
      ensures forall p: Path :: p.name != HealBin && p.name != HealNew ==> SameFile(old(files), files, p)
      ensures OldOrCopy(old(files), files, HealNew, HealBin, SETUID_MODE)
      ensures StagedOrInstalled(old(files), files)
      ensures At(HealNew) !in old(files) ==> files == old(files)
      ensures st == Failed ==> troubled
      ensures st == Done && !troubled ==> At(HealNew) !in files
      ensures copyFailed == (st == Failed)
    {
      hide Valid;
      var again: bool;
      st, again := SelfUpdate();
      while again
        invariant Valid() && Onward()
        invariant forall p: Path :: p.name != HealBin && p.name != HealNew ==> SameFile(old(files), files, p)
        invariant OldOrCopy(old(files), files, HealNew, HealBin, SETUID_MODE)
        invariant StagedOrInstalled(old(files), files)
        invariant At(HealNew) !in old(files) ==> files == old(files)
        invariant st == Failed ==> troubled
        invariant st == Crashed ==> oracle == []
        invariant st == Done && !troubled ==> At(HealNew) !in files
        invariant copyFailed == (st == Failed) && (again ==> st == Done)
        decreases |oracle|, again
      {
        st, again := SelfUpdate();
      }
    }

    /** main. `privileged` is whether the setuid bit took effect, `badArgument` whether some
        argument is not --reboot. */
    method HealMain(privileged: bool, badArgument: bool, reboot: bool) returns (exit: Exit)
      requires Valid()
      modifies this
      ensures Valid()
      ensures exit == Gone ==> oracle == []
      ensures Onward()
      ensures forall p: Path :: p.name == DataShim || p.name == DataEntry ==> SameFile(old(files), files, p)
      ensures OldOrCopy(old(files), files, DataShim, LibShim, SETUID_MODE)
      ensures OldOrCopy(old(files), files, DataEntry, SysEntry, PLAIN_MODE)
      ensures OldOrCopy(old(files), files, HealNew, HealBin, SETUID_MODE)
      ensures StagedOrInstalled(old(files), files)
      ensures !privileged || badArgument ==> files == old(files) && (exit == Gone || exit == Returned(1))
      ensures privileged && !badArgument && !troubled && exit != Gone ==>
                && exit == (if reboot then Rebooting else Returned(0))
                && Mirrored(files, DataShim, LibShim) && Mirrored(files, DataEntry, SysEntry)
                && At(HealNew) !in files
      ensures privileged && !badArgument && exit != Gone ==> RightExit(exit, copyFailed, reboot)
      ensures !troubled && !short && At(HealNew) !in old(files)
              && Mirrored(old(files), DataShim, LibShim) && Mirrored(old(files), DataEntry, SysEntry) ==>
                files == old(files)
    {
      hide Valid;
      copyFailed := false;
      var o := Call();
      if o.None? {
        return Gone;
      }
      if !privileged || badArgument {
        return Returned(1);
      }
      var st := SelfUpdates();
      if st == Crashed {
        return Gone;
      }
      exit := MirrorAll(st, reboot);
    }

    /** The rest of main: both mirror blocks, then the reboot if nothing failed to be copied. */
    method MirrorAll(selfUpdate: Status, reboot: bool) returns (exit: Exit)
      requires selfUpdate == Failed ==> troubled
      requires copyFailed == (selfUpdate == Failed)
      requires Valid()
      modifies this
      ensures Valid()
      ensures exit == Gone ==> oracle == []
      ensures Onward()
      ensures forall p: Path :: p.name != LibShim && p.name != SysEntry ==> SameFile(old(files), files, p)
      ensures OldOrCopy(old(files), files, DataShim, LibShim, SETUID_MODE)
      ensures OldOrCopy(old(files), files, DataEntry, SysEntry, PLAIN_MODE)
      ensures !troubled && exit != Gone ==>
                && exit == (if reboot then Rebooting else Returned(0))
                && Mirrored(files, DataShim, LibShim) && Mirrored(files, DataEntry, SysEntry)
      ensures exit != Gone ==> RightExit(exit, copyFailed, reboot)
      ensures !troubled && !short
              && Mirrored(old(files), DataShim, LibShim) && Mirrored(old(files), DataEntry, SysEntry) ==>
                files == old(files)
    {
      hide Valid;
      var rc := if selfUpdate == Failed then 2 else 0;
      var st := Mirror(DataShim, LibShim, SETUID_MODE);
      if st == Crashed {
        return Gone;
      }
      if st == Failed {
        rc := 2;
      }
      st := Mirror(DataEntry, SysEntry, PLAIN_MODE);
      if st == Crashed {
        return Gone;
      }
      if st == Failed {
        rc := 2;
      }
      if reboot && rc == 0 {
        exit := Restart();
      } else {
        exit := Returned(rc);
      }
    }

    /** Two ways to run the reboot command, then the system call. */
    method Restart() returns (exit: Exit)
      requires Valid()
      modifies this`oracle, this`troubled, this`short
      ensures Valid()
      ensures exit == Gone ==> oracle == []
      ensures Onward()
      ensures exit == Gone || exit == Rebooting || exit == Returned(3)
      ensures exit == Returned(3) ==> troubled
    {
      hide Valid;
      for attempt := 0 to 3
        invariant Valid() && Onward() && (attempt > 0 ==> troubled)
      {
        var o := Call();
        if o.None? {
          return Gone;
        }
        if o.value.Take? {
          return Rebooting;
        }
      }
      exit := Returned(3);
    }
  }

  /** One run of the helper after another, on the files the first one left. If the first had no
      call interrupted or failed and came to its end, both files are mirrored and nothing is staged;
      a second run with full reads then changes nothing at all, wherever it ends. */
  method RunTwice(start: Files, first: seq<Outcome>, second: seq<Outcome>, reboot: bool, rebootAgain: bool)
    returns (exit: Exit, once: Files, twice: Files)
    ensures Smooth(first) && exit != Gone ==>
              Mirrored(once, DataShim, LibShim) && Mirrored(once, DataEntry, SysEntry) && At(HealNew) !in once
    ensures Smooth(first) && exit != Gone && Full(second) ==> twice == once
  {
    var k := new Kernel(start, first);
    exit := k.HealMain(true, false, reboot);
    once := k.files;
    k := new Kernel(once, second);
    var _ := k.HealMain(true, false, rebootAgain);
    twice := k.files;
  }

  /** How the helper ends: gone half-way, returned, or handed over to the reboot command. */
  datatype Exit = Gone | Returned(rc: nat) | Rebooting

  /** A helper that could not copy something says so and does not reboot; otherwise it reboots if
      asked to, and reports when even that fails. */
  predicate RightExit(exit: Exit, copyFailed: bool, reboot: bool) {
    if copyFailed then exit == Returned(2)
    else if reboot then exit == Rebooting || exit == Returned(3)
    else exit == Returned(0)
  }

  /** The staged helper is removed only once the installed one is a complete copy of it. */
  ghost predicate StagedOrInstalled(before: Files, after: Files) {
    || SameFile(before, after, At(HealNew))
    || (&& At(HealNew) in before && At(HealBin) in after
        && after[At(HealBin)] == File(before[At(HealNew)].content, SETUID_MODE)
        && At(HealNew) !in after)
  }

  ghost predicate HaveSameContent(files: Files, a: Name, b: Name) {
    At(a) in files && At(b) in files && files[At(a)].content == files[At(b)].content
  }

  /** There is nothing to mirror, or the destination has the source's bytes. */
  ghost predicate Mirrored(files: Files, src: Name, dst: Name) {
    At(src) in files ==> HaveSameContent(files, src, dst)
  }

  /** dst is exactly as it was, or a complete copy of src with its final mode: never half-written. */
  ghost predicate OldOrCopy(before: Files, after: Files, src: Name, dst: Name, perms: nat) {
    || SameFile(before, after, At(dst))
    || (At(src) in before && At(dst) in after && after[At(dst)] == File(before[At(src)].content, perms))
  }

  lemma CompareStep(a: Bytes, b: Bytes, oracle: seq<Outcome>)
    ensures Compare(a, b, oracle).verdict ==
            if |oracle| < 2 then Unknown
            else
              var ra, rb := ReadResult(a, oracle[0]), ReadResult(b, oracle[1]);
              if ra != rb then Different
              else if ra <= 0 then Same
              else if a[..ra] != b[..rb] then Different
              else Compare(a[ra..], b[rb..], oracle[2..]).verdict
  {
  }

  lemma SharedPrefixGrows(a: Bytes, b: Bytes, pos: nat, k: nat)
    requires pos + k <= |a| && pos + k <= |b| && a[..pos] == b[..pos] && a[pos..][..k] == b[pos..][..k]
    ensures a[..pos + k] == b[..pos + k]
    ensures a[pos..][k..] == a[pos + k..] && b[pos..][k..] == b[pos + k..]
  {
    assert a[..pos + k] == a[..pos] + a[pos..][..k];
    assert b[..pos + k] == b[..pos] + b[pos..][..k];
  }

  /** Path p is the same in both file systems. */
  ghost predicate SameFile(before: Files, after: Files, p: Path) {
    (p in after <==> p in before) && (p in before ==> after[p] == before[p])
  }

  lemma SameAsBefore(files: Files)
    ensures forall p: Path :: SameFile(files, files, p)
  {
  }

  /** Writing or removing dst's temporary file leaves every other file as it was, dst included. */
  lemma OnlyTempChanged(before: Files, after: Files, dst: Name)
    requires after - {Temp(dst)} == before - {Temp(dst)}
    ensures forall p: Path :: p != Temp(dst) ==> SameFile(before, after, p)
  {
    forall p: Path | p != Temp(dst)
      ensures SameFile(before, after, p)
    {
      assert p in after - {Temp(dst)} <==> p in after;
      assert p in before - {Temp(dst)} <==> p in before;
    }
  }

  lemma SameFileMeans(before: Files, after: Files, p: Path)
    requires SameFile(before, after, p)
    ensures p in after <==> p in before
    ensures p in before ==> after[p] == before[p]
  {
  }

  lemma SameThroughout(before: Files, between: Files, after: Files)
    ensures forall p: Path :: SameFile(before, between, p) && SameFile(between, after, p) ==> SameFile(before, after, p)
  {
  }

  function Extended(f: File, more: Bytes): File {
    f.(content := f.content + more)
  }

  lemma ExtendNothing(files: Files, dst: Name)
    requires Temp(dst) in files
    ensures files[Temp(dst) := Extended(files[Temp(dst)], [])] == files
  {
    assert files[Temp(dst)].content + [] == files[Temp(dst)].content;
  }

  lemma ExtendTwice(f: File, a: Bytes, b: Bytes)
    ensures Extended(Extended(f, a), b) == Extended(f, a + b)
  {
    assert f.content + a + b == f.content + (a + b);
  }
}
