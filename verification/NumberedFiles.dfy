/** Directories whose listed files are exactly the numbered archives: rotation on files is rotation on indices. */
module NumberedFiles {
  import opened Text
  import opened Option
  import opened ArrayList
  import opened ArchiveIndex
  import opened ArchiveFiles

  /** The archives in the directory are exactly the numbered ones. */
  ghost predicate Shows(files: Files, n: Naming, d: Archives) {
    forall m: nat {:trigger n.Path(m)} ::
      (n.Path(m) in files <==> m in d) && (m in d ==> files[n.Path(m)] == d[m])
  }

  // ---------------------------------------------------------------- single moves

  lemma MoveShows(files: Files, n: Naming, d: Archives, i: nat, j: nat)
    requires Shows(files, n, d) && i in d
    ensures n.Path(i) in files && (n.Path(i) == n.Path(j) <==> i == j)
    ensures Shows(MovedFile(files, n.Path(i), n.Path(j)), n, Renamed(d, i, j))
  {
    var files' := MovedFile(files, n.Path(i), n.Path(j));
    if n.Path(i) == n.Path(j) {
      n.PathInjective(i, j);
    }
    forall m: nat
      ensures (n.Path(m) in files' <==> m in Renamed(d, i, j))
           && (m in Renamed(d, i, j) ==> files'[n.Path(m)] == Renamed(d, i, j)[m])
    {
      if n.Path(m) == n.Path(i) { n.PathInjective(m, i); }
      if n.Path(m) == n.Path(j) { n.PathInjective(m, j); }
    }
  }

  lemma UnlinkShows(files: Files, n: Naming, d: Archives, i: nat)
    requires Shows(files, n, d)
    ensures Shows(files - {n.Path(i)}, n, d - {i})
  {
    forall m: nat
      ensures n.Path(m) == n.Path(i) <==> m == i
    {
      if n.Path(m) == n.Path(i) { n.PathInjective(m, i); }
    }
  }

  lemma BaseShows(files: Files, n: Naming, d: Archives, j: nat)
    requires Shows(files, n, d) && n.base in files && n.Apart()
    ensures n.base != n.Path(j) && n.base !in MovedFile(files, n.base, n.Path(j))
    ensures Shows(MovedFile(files, n.base, n.Path(j)), n, d[j := files[n.base]])
  {
    forall m: nat
      ensures (n.Path(m) == n.Path(j) <==> m == j) && n.Path(m) != n.base
    {
      if n.Path(m) == n.Path(j) { n.PathInjective(m, j); }
    }
  }

  // ---------------------------------------------------------------- whole rotations

  lemma ArchivesMovable(files: Files, n: Naming, d: Archives, a: seq<nat>)
    requires n.Apart() && Shows(files, n, d) && Lists(a, d) && n.base in files
    ensures Movable(files, n, FilesOf(n, a))
    ensures forall i :: 0 <= i < |a| ==> n.IsArchive(FilesOf(n, a)[i].path)
  {
    var list := FilesOf(n, a);
    forall i, j | 0 <= i < j < |list|
      ensures list[i].path != list[j].path
    {
      assert Before(a, i, j);
      if n.Path(a[i]) == n.Path(a[j]) { n.PathInjective(a[i], a[j]); }
    }
    forall i | 0 <= i < |list|
      ensures list[i].path in files && list[i].path != n.base && n.IsArchive(list[i].path)
    {
      assert a[i] in a && list[i].path == n.Path(a[i]);
    }
  }

  /** One step of the rolling loop, on the files and on the indices. */
  lemma StepShows(g: Files, n: Naming, e: Archives, from: nat, i: nat, keep: nat)
    requires Shows(g, n, e) && from in e
    ensures n.Path(from) in g
    ensures Shows(if i >= keep then g - {n.Path(from)} else MovedFile(g, n.Path(from), n.Path(i + 1)), n,
                  if i >= keep then e - {from} else Renamed(e, from, i + 1))
    ensures n.Path(from) != n.Path(i + 1) && n.Path(i + 1) in g <==> from != i + 1 && i + 1 in e
  {
    UnlinkShows(g, n, e, from);
    MoveShows(g, n, e, from, i + 1);
    assert n.Path(i + 1) in g <==> i + 1 in e;
  }

  /** The rolling loop on files does to the archives what it does to the indices. */
  lemma {:induction false} RollShows(files: Files, n: Naming, d: Archives, a: seq<nat>, keep: nat, i: nat)
    requires Shows(files, n, d) && Lists(a, d) && i <= |a|
    ensures Shows(RolledFiles(files, n, FilesOf(n, a), keep, i), n, Rolled(d, a, keep, i))
    decreases |a| - i
  {
    if i < |a| {
      RollShows(files, n, d, a, keep, i + 1);
      RollFindsItsFiles(d, a, keep, i + 1);
      StepShows(RolledFiles(files, n, FilesOf(n, a), keep, i + 1), n, Rolled(d, a, keep, i + 1), a[i], i, keep);
    }
  }

  /** And it overwrites files exactly when the indices collide. */
  lemma {:induction false} RollLosesFiles(files: Files, n: Naming, d: Archives, a: seq<nat>, keep: nat, i: nat)
    requires Shows(files, n, d) && Lists(a, d) && i <= |a|
    ensures RollLosses(files, n, FilesOf(n, a), keep, i) == 0 <==> !Overwrites(d, a, keep, i)
    decreases |a| - i
  {
    if i < |a| {
      RollLosesFiles(files, n, d, a, keep, i + 1);
      RollShows(files, n, d, a, keep, i + 1);
      RollFindsItsFiles(d, a, keep, i + 1);
      StepShows(RolledFiles(files, n, FilesOf(n, a), keep, i + 1), n, Rolled(d, a, keep, i + 1), a[i], i, keep);
    }
  }

  /** A rolling rotation of numbered archives: the rolled archives with the base file as number 0. */
  lemma RollResultShows(files: Files, n: Naming, d: Archives, a: seq<nat>, maxCount: int)
    requires n.Apart() && Shows(files, n, d) && Lists(a, d) && n.base in files
    ensures var list, keep := FilesOf(n, a), Kept(|a|, maxCount);
            var r := RollResult(files, n, list, maxCount);
            && Shows(r, n, Rolled(d, a, keep, 0)[0 := files[n.base]])
            && n.base !in r && OthersKept(files, r, n)
            && (Losses(files, n, list, maxCount) == 0 <==> !Overwrites(d, a, keep, 0))
  {
    var list, keep := FilesOf(n, a), Kept(|a|, maxCount);
    ArchivesMovable(files, n, d, a);
    RollLeavesBase(files, n, list, keep, 0);
    RollShows(files, n, d, a, keep, 0);
    RollLosesFiles(files, n, d, a, keep, 0);
    RollFindsItsFiles(d, a, keep, 0);
    BaseShows(RolledFiles(files, n, list, keep, 0), n, Rolled(d, a, keep, 0), 0);
    RollKeepsOthersExactlyWhen(files, n, list, maxCount);
    assert n.Path(0) in RolledFiles(files, n, list, keep, 0) <==> 0 in Rolled(d, a, keep, 0);
  }

  lemma {:induction false} WithoutShows(files: Files, n: Naming, d: Archives, a: seq<nat>, k: nat)
    requires Shows(files, n, d) && k <= |a|
    ensures Shows(WithoutFiles(files, FilesOf(n, a), k), n, Without(d, a, k))
  {
    if k > 0 {
      WithoutShows(files, n, d, a, k - 1);
      UnlinkShows(WithoutFiles(files, FilesOf(n, a), k - 1), n, Without(d, a, k - 1), a[k - 1]);
    }
  }

  /** A sequence rotation of numbered archives: the newest ones and the base file above them, nothing overwritten. */
  lemma SequenceResultShows(files: Files, n: Naming, d: Archives, a: seq<nat>, maxCount: int)
    requires n.Apart() && Shows(files, n, d) && Lists(a, d) && n.base in files
    ensures var list, k := FilesOf(n, a), Unlinked(|a|, maxCount);
            var r := SequenceResult(files, n, list, maxCount);
            && Shows(r, n, SequenceRotated(d, a, maxCount, files[n.base]))
            && n.base !in r && OthersKept(files, r, n)
            && NextNumber(list) == NextIndex(a)
            && n.Path(NextNumber(list)) !in WithoutFiles(files, list, k)
  {
    ArchivesMovable(files, n, d, a);
    SequenceKeepsOthers(files, n, d, a, maxCount);
    UnlinkedShow(files, n, d, a, Unlinked(|a|, maxCount));
    NumbersAgree(n, a);
  }

  lemma SequenceKeepsOthers(files: Files, n: Naming, d: Archives, a: seq<nat>, maxCount: int)
    requires n.Apart() && Shows(files, n, d) && Lists(a, d) && n.base in files
    ensures OthersKept(files, SequenceResult(files, n, FilesOf(n, a), maxCount), n)
  {
    ArchivesMovable(files, n, d, a);
    SequenceKeepsOthersExactlyWhen(files, n, FilesOf(n, a), maxCount);
  }

  lemma NumbersAgree(n: Naming, a: seq<nat>)
    ensures NextNumber(FilesOf(n, a)) == NextIndex(a)
  {
  }

  lemma UnlinkedShow(files: Files, n: Naming, d: Archives, a: seq<nat>, k: nat)
    requires n.Apart() && Shows(files, n, d) && Lists(a, d) && n.base in files && k <= |a|
    requires Movable(files, n, FilesOf(n, a))
    ensures var g, j := WithoutFiles(files, FilesOf(n, a), k), NextIndex(a);
            && n.base in g && n.Path(j) !in g
            && n.base !in MovedFile(g, n.base, n.Path(j))
            && Shows(MovedFile(g, n.base, n.Path(j)), n, Without(d, a, k)[j := files[n.base]])
  {
    var g, j := WithoutFiles(files, FilesOf(n, a), k), NextIndex(a);
    BaseStays(files, n, FilesOf(n, a), k);
    WithoutShows(files, n, d, a, k);
    NextIndexFree(d, a, k);
    BaseShows(g, n, Without(d, a, k), j);
    assert n.Path(j) in g <==> j in Without(d, a, k);
  }

  lemma NextIndexFree(d: Archives, a: seq<nat>, k: nat)
    requires Lists(a, d) && k <= |a|
    ensures NextIndex(a) !in Without(d, a, k)
  {
    NextIndexAbove(d, a);
    WithoutMeans(d, a, k);
  }

  // ---------------------------------------------------------------- listings

  /**
   A listing in any order: every archive once, its name short enough and its number an int, and nothing else
   accepted.
   */
  ghost predicate ListsArchives(listing: seq<string>, n: Naming, files: Files) {
    && (forall i, j :: 0 <= i < j < |listing| ==> listing[i] != listing[j])
    && (forall i :: 0 <= i < |listing| && CheckNew(n, listing[i]).Some? ==> n.IsArchive(listing[i]))
    && (forall m: nat {:trigger n.Path(m)} :: n.Path(m) in files <==> n.Path(m) in listing)
    && AllReadable(listing, n)
  }

  ghost predicate AllReadable(listing: seq<string>, n: Naming) {
    forall m: nat {:trigger n.Path(m)} :: n.Path(m) in listing ==> |n.Path(m)| <= MAXLEN_PATH && m <= INT_MAX
  }

  lemma {:induction false} FilesAscend(n: Naming, b: seq<nat>, m: nat) returns (b': seq<nat>)
    requires Ascending(b) && m !in b
    ensures Inserted(FilesOf(n, b), FileAt(n, m), Greater) == FilesOf(n, b')
    ensures Ascending(b') && forall x :: x in b' <==> x == m || x in b
  {
    var k := 0;
    while k < |b| && b[k] <= m
      invariant k <= |b| && forall i :: 0 <= i < k ==> b[i] <= m
    {
      k := k + 1;
    }
    b' := b[..k] + [m] + b[k..];
    InsertAscends(b, m, k);
    InsertedAt(FilesOf(n, b), FileAt(n, m), Greater, k);
    FilesInserted(n, b, m, k);
  }

  lemma FilesInserted(n: Naming, b: seq<nat>, m: nat, k: nat)
    requires k <= |b|
    ensures FilesOf(n, b[..k] + [m] + b[k..]) == FilesOf(n, b)[..k] + [FileAt(n, m)] + FilesOf(n, b)[k..]
  {
  }

  /** The list is in index order, whatever order the directory is read in. */
  lemma {:induction false} ListedAscends(n: Naming, listing: seq<string>) returns (b: seq<nat>)
    requires n.Apart() && n.Readable() && AllReadable(listing, n)
    requires forall i, j :: 0 <= i < j < |listing| ==> listing[i] != listing[j]
    requires forall i :: 0 <= i < |listing| && CheckNew(n, listing[i]).Some? ==> n.IsArchive(listing[i])
    ensures Ascending(b) && Listed(n, listing) == FilesOf(n, b)
    ensures forall m: nat {:trigger n.Path(m)} :: m in b <==> n.Path(m) in listing
  {
    if listing == [] {
      return [];
    }
    var front, last := listing[..|listing| - 1], listing[|listing| - 1];
    assert listing == front + [last] && last !in front;
    b := ListedAscends(n, front);
    if CheckNew(n, last).Some? {
      var m: nat :| n.Path(m) == last;
      CheckNewReadsNumber(n, m);
      SameNumber(n, m);
      b := FilesAscend(n, b, m);
    } else {
      NoArchive(n, last, listing);
    }
  }

  lemma SameNumber(n: Naming, m: nat)
    ensures forall k: nat {:trigger n.Path(k)} :: n.Path(k) == n.Path(m) <==> k == m
  {
    forall k: nat
      ensures n.Path(k) == n.Path(m) <==> k == m
    {
      if n.Path(k) == n.Path(m) { n.PathInjective(k, m); }
    }
  }

  lemma NoArchive(n: Naming, last: string, listing: seq<string>)
    requires n.Apart() && n.Readable() && AllReadable(listing, n) && last in listing && CheckNew(n, last).None?
    ensures forall m: nat {:trigger n.Path(m)} :: n.Path(m) != last
  {
    forall m: nat
      ensures n.Path(m) != last
    {
      if n.Path(m) == last { CheckNewReadsNumber(n, m); }
    }
  }

  lemma ListedIsArchives(n: Naming, listing: seq<string>, files: Files, d: Archives, a: seq<nat>)
    requires n.Apart() && n.Readable() && ListsArchives(listing, n, files) && Shows(files, n, d) && Lists(a, d)
    ensures Listed(n, listing) == FilesOf(n, a) && Globbed(listing, files, n)
  {
    var b := ListedAscends(n, listing);
    forall m
      ensures m in a <==> m in b
    {
      if m >= 0 { var p := n.Path(m); }
    }
    ListingUnique(a, b);
    forall i | 0 <= i < |listing| && CheckNew(n, listing[i]).Some?
      ensures listing[i] in files
    {
      var m: nat :| n.Path(m) == listing[i];
    }
  }

  // ---------------------------------------------------------------- runs

  /** The directory when the base file has been written again. */
  function Written(files: Files, n: Naming, text: string): (r: Files) {
    files[n.base := text]
  }

  /**
   disks[k] is the directory before the k-th rotation, which finds history[k] in the base file and uses some
   listing.
   */
  ghost predicate IsRun(disks: seq<Files>, listings: seq<seq<string>>, n: Naming, history: seq<string>,
                        maxCount: int, sequence: bool) {
    && |disks| == |history| + 1 && |listings| == |history|
    && Shows(disks[0], n, map[])
    && forall k :: 0 <= k < |history| ==>
         Rotates(disks[k], disks[k + 1], listings[k], n, history[k], maxCount, sequence)
  }

  ghost predicate Rotates(disk: Files, next: Files, listing: seq<string>, n: Naming, text: string, maxCount: int,
                          sequence: bool) {
    var files := Written(disk, n, text);
    && ListsArchives(listing, n, files)
    && next == if sequence then SequenceResult(files, n, Listed(n, listing), maxCount)
               else RollResult(files, n, Listed(n, listing), maxCount)
  }

  lemma WrittenShows(files: Files, n: Naming, d: Archives, text: string)
    requires n.Apart() && Shows(files, n, d)
    ensures Shows(Written(files, n, text), n, d)
  {
  }

  lemma RollOnDisk(disk: Files, next: Files, listing: seq<string>, n: Naming, text: string, maxCount: int,
                   s: seq<string>)
    requires n.Apart() && n.Readable() && Shows(disk, n, Numbered(s))
    requires Rotates(disk, next, listing, n, text, maxCount, false)
    ensures Shows(next, n, Numbered(RolledContents(s, text, maxCount)))
  {
    var files := Written(disk, n, text);
    WrittenShows(disk, n, Numbered(s), text);
    IndicesList(s);
    ListedIsArchives(n, listing, files, Numbered(s), Indices(|s|));
    RollResultShows(files, n, Numbered(s), Indices(|s|), maxCount);
    ContiguousRoll(s, text, maxCount);
  }

  /** After any run of rolling rotations the directory holds the newest rotated files, newest first. */
  lemma {:induction false} RollRunOnDisk(disks: seq<Files>, listings: seq<seq<string>>, n: Naming, history: seq<string>,
                                         maxCount: int, k: nat)
    requires n.Apart() && n.Readable() && IsRun(disks, listings, n, history, maxCount, false) && k <= |history|
    ensures Shows(disks[k], n, Numbered(AfterRolls(history[..k], maxCount)))
  {
    if k == 0 {
      assert Numbered([]) == map[];
    } else {
      RollRunOnDisk(disks, listings, n, history, maxCount, k - 1);
      assert Rotates(disks[k - 1], disks[k], listings[k - 1], n, history[k - 1], maxCount, false);
      assert history[..k][..k - 1] == history[..k - 1];
      RollOnDisk(disks[k - 1], disks[k], listings[k - 1], n, history[k - 1], maxCount,
                 AfterRolls(history[..k - 1], maxCount));
    }
  }

  lemma SequenceOnDisk(disk: Files, next: Files, listing: seq<string>, n: Naming, text: string, maxCount: int,
                       l: Listing)
    requires n.Apart() && n.Readable() && Shows(disk, n, l.d) && Lists(l.a, l.d)
    requires Rotates(disk, next, listing, n, text, maxCount, true)
    ensures Shows(next, n, NextListing(l, maxCount, text).d)
  {
    var files := Written(disk, n, text);
    WrittenShows(disk, n, l.d, text);
    ListedIsArchives(n, listing, files, l.d, l.a);
    SequenceResultShows(files, n, l.d, l.a, maxCount);
  }

  lemma {:induction false} SequenceRunShows(disks: seq<Files>, listings: seq<seq<string>>, n: Naming,
                                            history: seq<string>, maxCount: int, k: nat)
    requires n.Apart() && n.Readable() && IsRun(disks, listings, n, history, maxCount, true) && k <= |history|
    ensures Shows(disks[k], n, AfterSequence(history[..k], maxCount).d)
  {
    if k > 0 {
      SequenceRunShows(disks, listings, n, history, maxCount, k - 1);
      assert Rotates(disks[k - 1], disks[k], listings[k - 1], n, history[k - 1], maxCount, true);
      var front, before := history[..k - 1], AfterSequence(history[..k - 1], maxCount);
      assert history[..k][..k - 1] == front && history[..k][k - 1] == history[k - 1];
      SequenceRunKeepsNewest(front, maxCount);
      SequenceOnDisk(disks[k - 1], disks[k], listings[k - 1], n, history[k - 1], maxCount, before);
    }
  }

  /** The same for sequence rotations: index order is age order, and the newest maxCount + 1 files are there. */
  lemma SequenceRunOnDisk(disks: seq<Files>, listings: seq<seq<string>>, n: Naming, history: seq<string>,
                          maxCount: int, k: nat)
    requires n.Apart() && n.Readable() && IsRun(disks, listings, n, history, maxCount, true) && k <= |history|
    ensures var l := AfterSequence(history[..k], maxCount);
            Shows(disks[k], n, l.d) && HoldsNewest(l, history[..k], maxCount)
  {
    SequenceRunShows(disks, listings, n, history, maxCount, k);
    SequenceRunKeepsNewest(history[..k], maxCount);
  }
}
