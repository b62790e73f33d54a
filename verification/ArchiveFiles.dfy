/** Archives as files: their names, the list that a directory gives, and what a rotation does to every file. */
module ArchiveFiles {
  import opened Option
  import opened Text
  import opened ArrayList
  import opened ArchiveIndex

  type Files = map<string, string>

  const INT_MAX := 0x7fff_ffff
  const INT_MIN := -0x8000_0000

  // ---------------------------------------------------------------- names

  /** An archive path with a zero-padded number in it; the base file is the one being rotated. */
  datatype Naming = Naming(base: string, prefix: string, suffix: string, width: nat) {
    function Path(i: nat): (p: string) {
      prefix + ZeroPad(Digits(i, 10), width) + suffix
    }

    /** No archive is the base file. */
    ghost predicate Apart() {
      forall i: nat :: Path(i) != base
    }

    /** Nothing behind the number looks like a digit or a directory. */
    predicate Readable() {
      suffix == "" || (!IsDigit(suffix[0], 10) && suffix[|suffix| - 1] != '/')
    }

    ghost predicate IsArchive(p: string) {
      exists i: nat :: p == Path(i)
    }

    lemma PathInjective(i: nat, j: nat)
      requires Path(i) == Path(j)
      ensures i == j
    {
      var x, y := ZeroPad(Digits(i, 10), width), ZeroPad(Digits(j, 10), width);
      assert |Path(i)| == |prefix| + |x| + |suffix| && |Path(j)| == |prefix| + |y| + |suffix|;
      assert x == Path(i)[|prefix|..|prefix| + |x|];
      assert y == Path(j)[|prefix|..|prefix| + |y|];
      ZeroPadInjective(i, j, 10, width);
    }
  }

  /** Without an archive path the archives are called base.0, base.1 and so on. */
  function DefaultNaming(base: string): (n: Naming) {
    Naming(base, base + ".", "", 0)
  }

  lemma DefaultNamingWorks(base: string)
    ensures DefaultNaming(base).Apart() && DefaultNaming(base).Readable()
  {
    var n := DefaultNaming(base);
    forall i: nat
      ensures n.Path(i) != base
    {
      assert |n.Path(i)| > |base|;
    }
  }

  datatype File = File(index: int, path: string)

  predicate Greater(f: File, g: File) {
    f.index > g.index
  }

  /** What sscanf's %d stores; a number that no int holds is stored as some int. */
  function ToInt(v: int): (i: int)
    ensures INT_MIN <= i <= INT_MAX
    ensures i == v <==> INT_MIN <= v <= INT_MAX
  {
    if INT_MIN <= v <= INT_MAX then v else (v - INT_MIN) % 0x1_0000_0000 + INT_MIN
  }

  /** zlog_file_check_new: which listed paths are taken for archives, and their numbers; no number reads as 0. */
  function CheckNew(n: Naming, path: string): (f: Option<File>)
    ensures f.Some? ==> f.value.path == path && path != n.base && |path| <= MAXLEN_PATH
  {
    if path == n.base then None
    else if path != "" && path[|path| - 1] == '/' then None
    else if MAXLEN_PATH < |path| then None
    else
      var number := ScanInt(if |n.prefix| <= |path| then path[|n.prefix|..] else "");
      if n.width != 0 && number.length < n.width then None else Some(File(ToInt(number.value), path))
  }

  lemma BehindPrefix(prefix: string, number: string, suffix: string)
    ensures (prefix + number + suffix)[|prefix|..] == number + suffix
  {
  }

  lemma NumberRead(prefix: string, number: string, suffix: string)
    requires number != "" && AllDigits(number, 10) && (suffix == "" || !IsDigit(suffix[0], 10))
    ensures ScanInt((prefix + number + suffix)[|prefix|..]) == Scanned(Value(number, 10), |number|)
  {
    BehindPrefix(prefix, number, suffix);
    ScanIntPlain(number, suffix);
  }

  lemma {:induction false} DigitsEnd(s: string)
    ensures var k := LeadingDigits(s); k < |s| ==> !IsDigit(s[k], 10)
  {
    if s != "" && IsDigit(s[0], 10) {
      DigitsEnd(s[1..]);
    }
  }

  /** A suffix that starts with digits is read as part of the number. */
  lemma NumberMisread(prefix: string, number: string, suffix: string)
    requires number != "" && AllDigits(number, 10) && Value(number, 10) == 1
    requires suffix != "" && IsDigit(suffix[0], 10)
    ensures ScanInt((prefix + number + suffix)[|prefix|..]).value != 1
  {
    var k := LeadingDigits(suffix);
    var digits, rest := suffix[..k], suffix[k..];
    DigitsEnd(suffix);
    ValueAppend(number, digits, 10);
    PowerPositive(10, k);
    BehindPrefix(prefix, number, suffix);
    assert number + suffix == (number + digits) + rest;
    ScanIntPlain(number + digits, rest);
  }

  /** The names of all archives denote their numbers exactly when the suffix does not start with a digit. */
  lemma NumbersReadExactlyWhen(n: Naming)
    ensures (forall i: nat {:trigger n.Path(i)} :: i <= INT_MAX ==> ScanInt(n.Path(i)[|n.prefix|..]).value == i)
       <==> (n.suffix == "" || !IsDigit(n.suffix[0], 10))
  {
    if n.suffix == "" || !IsDigit(n.suffix[0], 10) {
      forall i: nat | i <= INT_MAX
        ensures ScanInt(n.Path(i)[|n.prefix|..]).value == i
      {
        ZeroPadDenotes(i, 10, n.width);
        NumberRead(n.prefix, ZeroPad(Digits(i, 10), n.width), n.suffix);
      }
    } else {
      ZeroPadDenotes(1, 10, n.width);
      NumberMisread(n.prefix, ZeroPad(Digits(1, 10), n.width), n.suffix);
      assert ScanInt(n.Path(1)[|n.prefix|..]).value != 1;
    }
  }

  lemma NoTrailingSlash(prefix: string, number: string, suffix: string)
    requires number != "" && AllDigits(number, 10) && (suffix == "" || suffix[|suffix| - 1] != '/')
    ensures var path := prefix + number + suffix; path[|path| - 1] != '/'
  {
    assert IsDigit(number[|number| - 1], 10);
  }

  lemma CheckNewOf(n: Naming, path: string, number: Scanned)
    requires path != "" && path != n.base && path[|path| - 1] != '/' && |n.prefix| <= |path| <= MAXLEN_PATH
    requires ScanInt(path[|n.prefix|..]) == number && n.width <= number.length
    ensures CheckNew(n, path) == Some(File(ToInt(number.value), path))
  {
  }

  /** What is not taken for an archive, and which number the others have. */
  lemma CheckNewMeans(n: Naming, path: string)
    ensures var behind := if |n.prefix| <= |path| then path[|n.prefix|..] else "";
            && (CheckNew(n, path).None? <==>
                  || path == n.base || (path != "" && path[|path| - 1] == '/') || 1024 < |path|
                  || ScanInt(behind).length < n.width)
            && (CheckNew(n, path).Some? && -0x8000_0000 <= ScanInt(behind).value < 0x8000_0000 ==>
                  CheckNew(n, path) == Some(File(ScanInt(behind).value, path)))
  {
  }

  /** The number read from a readable archive name is its number exactly when that is an int. */
  lemma CheckNewReadsNumber(n: Naming, i: nat)
    requires n.Readable() && n.Path(i) != n.base && |n.Path(i)| <= MAXLEN_PATH
    ensures CheckNew(n, n.Path(i)) == Some(FileAt(n, i)) <==> i <= INT_MAX
  {
    var number := ZeroPad(Digits(i, 10), n.width);
    ZeroPadDenotes(i, 10, n.width);
    NumberRead(n.prefix, number, n.suffix);
    NoTrailingSlash(n.prefix, number, n.suffix);
    CheckNewOf(n, n.Path(i), Scanned(i, |number|));
    NumberKept(CheckNew(n, n.Path(i)), n, i);
  }

  lemma NumberKept(f: Option<File>, n: Naming, i: nat)
    requires f == Some(File(ToInt(i), n.Path(i)))
    ensures f == Some(FileAt(n, i)) <==> i <= INT_MAX
  {
  }

  // ---------------------------------------------------------------- the list of files

  function FileAt(n: Naming, i: nat): (f: File) {
    File(i, n.Path(i))
  }

  function FilesOf(n: Naming, a: seq<nat>): (files: seq<File>)
    ensures |files| == |a| && forall i :: 0 <= i < |a| ==> files[i] == FileAt(n, a[i])
  {
    if a == [] then [] else FilesOf(n, a[..|a| - 1]) + [FileAt(n, a[|a| - 1])]
  }

  /** The files that a listing gives, each inserted by its number behind those before it. */
  function Listed(n: Naming, listing: seq<string>): (list: seq<File>) {
    if listing == [] then []
    else
      var front := Listed(n, listing[..|listing| - 1]);
      match CheckNew(n, listing[|listing| - 1])
      case None => front
      case Some(f) => Inserted(front, f, Greater)
  }

  predicate DistinctPaths(list: seq<File>) {
    forall i, j :: 0 <= i < j < |list| ==> list[i].path != list[j].path
  }

  /** glob reports every path once, and what is taken for an archive is a file. */
  predicate Globbed(listing: seq<string>, files: Files, n: Naming) {
    && (forall i, j :: 0 <= i < j < |listing| ==> listing[i] != listing[j])
    && (forall i :: 0 <= i < |listing| && CheckNew(n, listing[i]).Some? ==> listing[i] in files)
  }

  lemma {:induction false} InsertedMeans(s: seq<File>, f: File)
    requires DistinctPaths(s) && forall i :: 0 <= i < |s| ==> s[i].path != f.path
    ensures forall g :: g in Inserted(s, f, Greater) <==> g in s || g == f
    ensures DistinctPaths(Inserted(s, f, Greater))
  {
    if s != [] {
      var first, rest := s[0], s[1..];
      assert s == [first] + rest;
      if !Greater(first, f) {
        InsertedMeans(rest, f);
        var r := Inserted(rest, f, Greater);
        forall i | 0 <= i < |r|
          ensures r[i].path != first.path
        {
          assert r[i] in r;
        }
      }
    }
  }

  /** The list holds exactly the accepted paths, each once. */
  lemma {:induction false} ListedMeans(n: Naming, listing: seq<string>)
    requires forall i, j :: 0 <= i < j < |listing| ==> listing[i] != listing[j]
    ensures forall f :: f in Listed(n, listing) <==> f.path in listing && CheckNew(n, f.path) == Some(f)
    ensures DistinctPaths(Listed(n, listing))
  {
    if listing != [] {
      var front, last := listing[..|listing| - 1], listing[|listing| - 1];
      assert listing == front + [last] && last !in front;
      ListedMeans(n, front);
      if CheckNew(n, last).Some? {
        var s := Listed(n, front);
        forall i | 0 <= i < |s|
          ensures s[i].path != last
        {
          assert s[i] in s;
        }
        InsertedMeans(s, CheckNew(n, last).value);
      }
    }
  }

  // ---------------------------------------------------------------- what a rotation does to the files

  function MovedFile(files: Files, from: string, to: string): (r: Files)
    requires from in files
  {
    if from == to then files else (files - {from})[to := files[from]]
  }

  /** The files after the rolling loop has dealt with the listed files from i on, the last one first. */
  function RolledFiles(files: Files, n: Naming, list: seq<File>, keep: nat, i: nat): (r: Files)
    requires i <= |list|
    decreases |list| - i
  {
    if i == |list| then files
    else
      var g := RolledFiles(files, n, list, keep, i + 1);
      if i >= keep then g - {list[i].path}
      else if list[i].path in g then MovedFile(g, list[i].path, n.Path(i + 1))
      else g
  }

  /** How many renames of that loop went onto another existing file. */
  function RollLosses(files: Files, n: Naming, list: seq<File>, keep: nat, i: nat): (count: nat)
    requires i <= |list|
    decreases |list| - i
  {
    if i == |list| then 0
    else
      var g := RolledFiles(files, n, list, keep, i + 1);
      RollLosses(files, n, list, keep, i + 1)
      + if i < keep && list[i].path != n.Path(i + 1) && n.Path(i + 1) in g then 1 else 0
  }

  /** Where the loop stops for a new path that is too long: the listed files from there on are done. */
  function Blocked(n: Naming, keep: nat, i: nat): (stop: nat)
    ensures stop <= i
  {
    if i == 0 then 0
    else if i <= keep && MAXLEN_PATH < |n.Path(i)| then i
    else Blocked(n, keep, i - 1)
  }

  /** The files after the k oldest listed ones have been unlinked. */
  function WithoutFiles(files: Files, list: seq<File>, k: nat): (r: Files)
    requires k <= |list|
  {
    if k == 0 then files else WithoutFiles(files, list, k - 1) - {list[k - 1].path}
  }

  /** The number that the base file gets. */
  function NextNumber(list: seq<File>): (j: nat) {
    if list == [] then 0
    else if |list| - 1 > list[|list| - 1].index then |list| else list[|list| - 1].index + 1
  }

  /** Behind the last listed file by number, or by position where the numbers are smaller. */
  lemma NextNumberMeans(list: seq<File>)
    ensures |list| <= NextNumber(list) && forall i :: i == |list| - 1 && 0 <= i ==> list[i].index < NextNumber(list)
    ensures NextNumber(list) == |list| || NextNumber(list) == list[|list| - 1].index + 1
  {
  }

  /** The loop runs from the last file down, and stops at the first new name that is too long. */
  lemma {:induction false} BlockedMeans(n: Naming, keep: nat, i: nat)
    ensures var stop := Blocked(n, keep, i);
            && (forall j: nat {:trigger n.Path(j)} :: stop < j <= i && j <= keep ==> |n.Path(j)| <= 1024)
            && (0 < stop ==> stop <= keep && 1024 < |n.Path(stop)|)
  {
    if 0 < i && (keep < i || |n.Path(i)| <= 1024) {
      BlockedMeans(n, keep, i - 1);
    }
  }

  /** What is listed can be moved: every file once, present, and none of them the base file. */
  predicate Movable(files: Files, n: Naming, list: seq<File>) {
    && DistinctPaths(list)
    && n.base in files
    && forall i :: 0 <= i < |list| ==> list[i].path in files && list[i].path != n.base
  }

  lemma ListedMovable(files: Files, n: Naming, listing: seq<string>)
    requires Globbed(listing, files, n) && n.base in files
    ensures Movable(files, n, Listed(n, listing))
  {
    ListedMeans(n, listing);
    var list := Listed(n, listing);
    forall i | 0 <= i < |list|
      ensures list[i].path in files && list[i].path != n.base
    {
      assert list[i] in list;
    }
  }

  /** Whatever a rename overwrites, the base file and the files still to be moved are there. */
  lemma {:induction false} RollFindsFiles(files: Files, n: Naming, list: seq<File>, keep: nat, i: nat)
    requires Movable(files, n, list) && i <= |list|
    ensures var r := RolledFiles(files, n, list, keep, i);
            n.base in r && forall j :: 0 <= j < i ==> list[j].path in r
    decreases |list| - i
  {
    if i < |list| {
      RollFindsFiles(files, n, list, keep, i + 1);
      forall j | 0 <= j < i
        ensures list[j].path != list[i].path
      {
      }
    }
  }

  /** The base file is as it was, unless an archive is named like it. */
  lemma {:induction false} RollLeavesBase(files: Files, n: Naming, list: seq<File>, keep: nat, i: nat)
    requires n.Apart() && Movable(files, n, list) && i <= |list|
    ensures var r := RolledFiles(files, n, list, keep, i); n.base in r && r[n.base] == files[n.base]
    decreases |list| - i
  {
    if i < |list| {
      RollLeavesBase(files, n, list, keep, i + 1);
      assert n.Path(i + 1) != n.base && list[i].path != n.base;
    }
  }

  lemma {:induction false} BaseStays(files: Files, n: Naming, list: seq<File>, k: nat)
    requires Movable(files, n, list) && k <= |list|
    ensures var r := WithoutFiles(files, list, k); n.base in r && r[n.base] == files[n.base]
  {
    if k > 0 {
      BaseStays(files, n, list, k - 1);
    }
  }

  function RollResult(files: Files, n: Naming, list: seq<File>, maxCount: int): (r: Files) {
    var g := RolledFiles(files, n, list, Kept(|list|, maxCount), 0);
    if n.base in g then MovedFile(g, n.base, n.Path(0)) else g
  }

  /** All renames of a rolling rotation that went onto another existing file. */
  function Losses(files: Files, n: Naming, list: seq<File>, maxCount: int): (count: nat) {
    var keep := Kept(|list|, maxCount);
    RollLosses(files, n, list, keep, 0)
    + if n.Path(0) != n.base && n.Path(0) in RolledFiles(files, n, list, keep, 0) then 1 else 0
  }

  function SequenceResult(files: Files, n: Naming, list: seq<File>, maxCount: int): (r: Files) {
    var g := WithoutFiles(files, list, Unlinked(|list|, maxCount));
    if n.base in g then MovedFile(g, n.base, n.Path(NextNumber(list))) else g
  }

  // ---------------------------------------------------------------- other files

  /** Files that are neither archives nor the base file are as before. */
  ghost predicate OthersKept(before: Files, after: Files, n: Naming) {
    forall p :: !n.IsArchive(p) && p != n.base ==> SameFile(before, after, p)
  }

  predicate SameFile(before: Files, after: Files, p: string) {
    (p in before <==> p in after) && (p in before ==> before[p] == after[p])
  }

  predicate Has(list: seq<File>, i: nat, p: string) {
    exists j :: i <= j < |list| && list[j].path == p
  }

  /** A file that is no archive survives the rolling loop, unchanged, exactly when it is not listed. */
  lemma {:induction false} RollAndOther(files: Files, n: Naming, list: seq<File>, keep: nat, i: nat, p: string)
    requires n.Apart() && Movable(files, n, list) && i <= |list| && !n.IsArchive(p) && p != n.base
    ensures var r := RolledFiles(files, n, list, keep, i);
            && (p in r <==> p in files && !Has(list, i, p)) && (p in r ==> r[p] == files[p])
    decreases |list| - i
  {
    if i < |list| {
      RollAndOther(files, n, list, keep, i + 1, p);
      RollFindsFiles(files, n, list, keep, i + 1);
      assert p != n.Path(i + 1);
      assert Has(list, i, p) <==> list[i].path == p || Has(list, i + 1, p);
    }
  }

  /** Rolling leaves all other files alone exactly when nothing but archives is taken for an archive. */
  lemma RollKeepsOthersExactlyWhen(files: Files, n: Naming, list: seq<File>, maxCount: int)
    requires n.Apart() && Movable(files, n, list)
    ensures OthersKept(files, RollResult(files, n, list, maxCount), n)
       <==> forall i :: 0 <= i < |list| ==> n.IsArchive(list[i].path)
  {
    var keep, r := Kept(|list|, maxCount), RollResult(files, n, list, maxCount);
    RollFindsFiles(files, n, list, keep, 0);
    forall p | !n.IsArchive(p) && p != n.base
      ensures SameFile(files, r, p) <==> !(p in files && Has(list, 0, p))
    {
      RollAndOther(files, n, list, keep, 0, p);
      assert p != n.Path(0);
    }
    forall i | 0 <= i < |list|
      ensures Has(list, 0, list[i].path)
    {
    }
  }

  lemma {:induction false} UnlinkedAndOther(files: Files, list: seq<File>, k: nat, p: string)
    requires k <= |list|
    ensures var r := WithoutFiles(files, list, k);
            && (p in r <==> p in files && forall j :: 0 <= j < k ==> list[j].path != p)
            && (p in r ==> r[p] == files[p])
  {
    if k > 0 {
      UnlinkedAndOther(files, list, k - 1, p);
    }
  }

  /** Sequence rotation leaves all other files alone exactly when only archives are among the unlinked ones. */
  lemma SequenceKeepsOthersExactlyWhen(files: Files, n: Naming, list: seq<File>, maxCount: int)
    requires n.Apart() && Movable(files, n, list)
    ensures OthersKept(files, SequenceResult(files, n, list, maxCount), n)
       <==> forall i :: 0 <= i < Unlinked(|list|, maxCount) ==> n.IsArchive(list[i].path)
  {
    var k, r := Unlinked(|list|, maxCount), SequenceResult(files, n, list, maxCount);
    BaseStays(files, n, list, k);
    forall p | !n.IsArchive(p) && p != n.base
      ensures SameFile(files, r, p) <==> !(p in files && exists j :: 0 <= j < k && list[j].path == p)
    {
      UnlinkedAndOther(files, list, k, p);
      assert p != n.Path(NextNumber(list));
    }
  }

  lemma ArchiveHasDigit(n: Naming, i: nat)
    ensures |n.prefix| < |n.Path(i)| && IsDigit(n.Path(i)[|n.prefix|], 10)
  {
    var number := ZeroPad(Digits(i, 10), n.width);
    ZeroPadDenotes(i, 10, n.width);
    assert n.Path(i)[|n.prefix|] == number[0];
  }

  lemma NoNumber(s: string)
    requires s != "" && !IsSpace(s[0]) && !IsDigit(s[0], 10) && s[0] != '-' && s[0] != '+'
    ensures ScanInt(s) == Scanned(0, 0)
  {
    assert s[0..] == s;
  }

  /** A backup beside the base file is taken for archive 0 by the default naming. */
  lemma BackupTakenForArchive(base: string)
    requires |base| + 4 <= MAXLEN_PATH
    ensures var n := DefaultNaming(base);
            CheckNew(n, base + ".bak") == Some(File(0, base + ".bak")) && !n.IsArchive(base + ".bak")
  {
    var n, p := DefaultNaming(base), base + ".bak";
    assert p[|n.prefix|..] == "bak" && p[|n.prefix|] == 'b' && p[|p| - 1] == 'k';
    NoNumber("bak");
    CheckNewOf(n, p, Scanned(0, 0));
    forall i: nat
      ensures p != n.Path(i)
    {
      ArchiveHasDigit(n, i);
    }
  }

  lemma TwoMoves(base: string, p: string, base': string, p': string, text: string, backup: string)
    requires base != p && base != base' && base != p' && p != base' && p != p' && base' != p'
    ensures MovedFile(MovedFile(map[base := text, p := backup], p, p'), base, base')
         == map[base' := text, p' := backup]
  {
  }

  lemma RolledOnce(files: Files, n: Naming, f: File)
    requires f.path in files && n.base in files && f.path != n.base && n.Apart()
    ensures RollResult(files, n, [f], 0)
         == MovedFile(MovedFile(files, f.path, n.Path(1)), n.base, n.Path(0))
  {
    assert Kept(1, 0) == 1;
    assert RolledFiles(files, n, [f], 1, 1) == files;
    assert RolledFiles(files, n, [f], 1, 0) == MovedFile(files, f.path, n.Path(1));
  }

  lemma BackupPaths(base: string)
    requires |base| + 4 <= MAXLEN_PATH
    ensures var n, p := DefaultNaming(base), base + ".bak";
            && p != base && n.Path(0) != base && n.Path(1) != base
            && n.Path(0) != p && n.Path(1) != p && n.Path(0) != n.Path(1)
  {
    var n := DefaultNaming(base);
    BackupTakenForArchive(base);
    DefaultNamingWorks(base);
    if n.Path(0) == n.Path(1) { n.PathInjective(0, 1); }
  }

  lemma OnlyOne(n: Naming, p: string, f: File)
    requires CheckNew(n, p) == Some(f)
    ensures Listed(n, [p]) == [f]
  {
    assert [p][..0] == [];
  }

  /** Any file that is wrongly taken for archive 0 is renamed. */
  lemma StrayIsRolled(n: Naming, p: string, text: string, backup: string)
    requires CheckNew(n, p) == Some(File(0, p)) && n.Apart() && !n.IsArchive(p) && n.Path(0) != n.Path(1)
    ensures var files: Files := map[n.base := text, p := backup];
            RollResult(files, n, Listed(n, [p]), 0) == map[n.Path(0) := text, n.Path(1) := backup]
  {
    OnlyOne(n, p, File(0, p));
    RolledOnce(map[n.base := text, p := backup], n, File(0, p));
    assert p != n.Path(0) && p != n.Path(1);
    TwoMoves(n.base, p, n.Path(0), n.Path(1), text, backup);
  }

  /** So a rolling rotation renames that backup to archive 1. */
  lemma BackupIsRolled(base: string, text: string, backup: string)
    requires |base| + 4 <= MAXLEN_PATH
    ensures var n, p := DefaultNaming(base), base + ".bak";
            var after := RollResult(map[base := text, p := backup], n, Listed(n, [p]), 0);
            && after == map[n.Path(0) := text, n.Path(1) := backup]
            && p !in after
  {
    var n, p := DefaultNaming(base), base + ".bak";
    BackupTakenForArchive(base);
    DefaultNamingWorks(base);
    BackupPaths(base);
    StrayIsRolled(n, p, text, backup);
  }
}
