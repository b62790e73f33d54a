/** Rotation on archive indices: what the renames and unlinks of one rotation do to the numbered archives. */
module ArchiveIndex {

  /** Archives by index, and the indices as listed: strictly ascending. */
  type Archives = map<nat, string>

  predicate Before(a: seq<nat>, i: int, j: int) {
    0 <= i < |a| && 0 <= j < |a| && a[i] < a[j]
  }

  ghost predicate Ascending(a: seq<nat>) {
    forall i, j :: 0 <= i < j < |a| ==> Before(a, i, j)
  }

  ghost predicate Lists(a: seq<nat>, d: Archives) {
    && Ascending(a)
    && (forall m :: m in d <==> m in a)
  }

  /** rename(2) from one archive index to another; onto itself it does nothing. */
  function Renamed(d: Archives, from: nat, to: nat): (r: Archives)
    requires from in d
  {
    if from == to then d else (d - {from})[to := d[from]]
  }

  /** How many of the n listed archives a rolling rotation keeps beside the base file. */
  function Kept(n: nat, maxCount: int): (keep: nat)
    ensures keep <= n
  {
    if maxCount > 0 && maxCount - 1 < n then maxCount - 1 else n
  }

  // ---------------------------------------------------------------- rolling

  /** The archives after the rolling loop has dealt with the listed archives from i on, the last one first. */
  ghost function Rolled(d: Archives, a: seq<nat>, keep: nat, i: nat): (r: Archives)
    requires i <= |a|
    decreases |a| - i
  {
    if i == |a| then d
    else
      var e := Rolled(d, a, keep, i + 1);
      if i >= keep then e - {a[i]} else if a[i] in e then Renamed(e, a[i], i + 1) else e
  }

  /** Some rename of that loop went onto another existing archive. */
  ghost predicate Overwrites(d: Archives, a: seq<nat>, keep: nat, i: nat)
    requires i <= |a|
    decreases |a| - i
  {
    i < |a|
    && (|| Overwrites(d, a, keep, i + 1)
        || (i < keep && a[i] != i + 1 && i + 1 in Rolled(d, a, keep, i + 1)))
  }

  /** No archive that is still waiting sits on the target of a rename from i on. */
  ghost predicate TargetsFree(a: seq<nat>, keep: nat, i: nat) {
    forall j :: 0 <= j < |a| ==> !(j + 2 <= a[j] && i + 1 <= a[j] <= keep)
  }

  ghost function Waiting(a: seq<nat>, i: nat): (w: set<nat>)
    requires i <= |a|
  {
    set j | 0 <= j < i :: a[j]
  }

  /** While targets are free: waiting archives are untouched, moved ones have the index after their position. */
  ghost predicate RolledTo(d: Archives, a: seq<nat>, keep: nat, i: nat, w: set<nat>, e: Archives)
    requires keep <= |a| && forall j :: 0 <= j < |a| ==> a[j] in d
  {
    && (forall m :: m in e <==> (m in w || i < m <= keep))
    && (forall m :: m in w && m in d ==> e[m] == d[m])
    && (forall m :: i < m <= keep ==> e[m] == d[a[m - 1]])
  }

  lemma RollStep(d: Archives, a: seq<nat>, keep: nat, i: nat, w: set<nat>, e: Archives)
    requires keep <= |a| && i < |a| && forall j :: 0 <= j < |a| ==> a[j] in d
    requires a[i] !in w && !(i + 2 <= a[i] <= keep) && (i < keep ==> i + 1 !in w)
    requires RolledTo(d, a, keep, i + 1, w + {a[i]}, e)
    ensures a[i] in e
    ensures RolledTo(d, a, keep, i, w, if i >= keep then e - {a[i]} else Renamed(e, a[i], i + 1))
  {
    assert a[i] in w + {a[i]};
    if i < keep && a[i] != i + 1 {
      var r := Renamed(e, a[i], i + 1);
      forall m
        ensures m in r <==> (m in w || i < m <= keep)
      {
        assert m in r <==> m == i + 1 || (m in e && m != a[i]);
      }
    }
  }

  lemma WaitingStep(d: Archives, a: seq<nat>, keep: nat, i: nat)
    requires Lists(a, d) && i < |a| && TargetsFree(a, keep, i)
    ensures Waiting(a, i + 1) == Waiting(a, i) + {a[i]} && a[i] !in Waiting(a, i)
    ensures i < keep ==> i + 1 !in Waiting(a, i)
  {
    forall j | 0 <= j < i
      ensures a[j] != a[i] && (i < keep ==> a[j] != i + 1)
    {
      assert Before(a, j, i);
    }
  }

  lemma {:induction false} RollWhileTargetsFree(d: Archives, a: seq<nat>, keep: nat, i: nat)
    requires Lists(a, d) && keep <= |a| && i <= |a| && TargetsFree(a, keep, i)
    ensures RolledTo(d, a, keep, i, Waiting(a, i), Rolled(d, a, keep, i))
    decreases |a| - i
  {
    if i < |a| {
      RollWhileTargetsFree(d, a, keep, i + 1);
      WaitingStep(d, a, keep, i);
      RollStep(d, a, keep, i, Waiting(a, i), Rolled(d, a, keep, i + 1));
    }
  }

  /** Rolling loses an archive exactly when one sits at least two above its position and within the kept range. */
  lemma {:induction false} RollLosesExactlyWhen(d: Archives, a: seq<nat>, keep: nat, i: nat)
    requires Lists(a, d) && keep <= |a| && i <= |a|
    ensures Overwrites(d, a, keep, i) <==> !TargetsFree(a, keep, i)
    decreases |a| - i
  {
    if i < |a| {
      RollLosesExactlyWhen(d, a, keep, i + 1);
      forall j | 0 <= j < i
        ensures a[j] < a[i]
      {
        assert Before(a, j, i);
      }
      if TargetsFree(a, keep, i + 1) {
        RollWhileTargetsFree(d, a, keep, i + 1);
        if i < keep {
          assert i + 1 in Rolled(d, a, keep, i + 1) <==> i + 1 in Waiting(a, i + 1);
        }
      }
    } else {
      AtLeastPosition(d, a);
    }
  }

  /** Archives 2 and 3, both to be kept: 3 is renamed onto 2, which is lost. */
  lemma GapLosesAnArchive(x: string, y: string)
    ensures var d: Archives := map[2 := x, 3 := y];
            Lists([2, 3], d) && Overwrites(d, [2, 3], 2, 0) && Rolled(d, [2, 3], 2, 0) == map[1 := y]
  {
    var d: Archives, a: seq<nat> := map[2 := x, 3 := y], [2, 3];
    assert Rolled(d, a, 2, 2) == d;
    assert Rolled(d, a, 2, 1) == map[2 := y];
    assert Rolled(d, a, 2, 0) == map[1 := y];
    assert Overwrites(d, a, 2, 1);
  }

  lemma AtLeastPosition(d: Archives, a: seq<nat>)
    requires Lists(a, d)
    ensures forall j :: 0 <= j < |a| ==> j <= a[j]
  {
    var j := 0;
    while j < |a|
      invariant 0 <= j <= |a|
      invariant forall k :: 0 <= k < j ==> k <= a[k]
    {
      assert j > 0 ==> Before(a, j - 1, j);
      j := j + 1;
    }
  }

  /** Whatever gets overwritten, the next archive to be moved exists; and index 0 ends up free for the base file. */
  lemma {:induction false} RollFindsItsFiles(d: Archives, a: seq<nat>, keep: nat, i: nat)
    requires Lists(a, d) && i <= |a|
    ensures forall j :: 0 <= j < i ==> a[j] in Rolled(d, a, keep, i)
    ensures 0 in Rolled(d, a, keep, i) ==> exists j :: 0 <= j < i && a[j] == 0
    decreases |a| - i
  {
    if i < |a| {
      RollFindsItsFiles(d, a, keep, i + 1);
      var e := Rolled(d, a, keep, i + 1);
      forall j | 0 <= j < i
        ensures a[j] in Rolled(d, a, keep, i)
      {
        assert Before(a, j, i) && a[j] in e;
      }
    }
  }

  // ---------------------------------------------------------------- contiguous archives

  /** Archives numbered from 0 without gaps. */
  function Numbered(contents: seq<string>): (d: Archives) {
    map m: nat | m < |contents| :: contents[m]
  }

  function Indices(n: nat): (a: seq<nat>)
    ensures |a| == n && forall i :: 0 <= i < n ==> a[i] == i
  {
    if n == 0 then [] else Indices(n - 1) + [n - 1]
  }

  /** The kept archives by position, in front of them the base file. */
  function KeptContents(d: Archives, a: seq<nat>, keep: nat): (contents: seq<string>)
    requires keep <= |a| && forall j :: 0 <= j < |a| ==> a[j] in d
    ensures |contents| == keep && forall k :: 0 <= k < keep ==> contents[k] == d[a[k]]
  {
    if keep == 0 then [] else KeptContents(d, a, keep - 1) + [d[a[keep - 1]]]
  }

  /** The end of a rolling rotation without loss: contiguous, the base file first, then the kept archives in order. */
  lemma RollKeepsOrder(d: Archives, a: seq<nat>, keep: nat, base: string)
    requires Lists(a, d) && keep <= |a| && TargetsFree(a, keep, 0)
    ensures 0 !in Rolled(d, a, keep, 0)
    ensures Rolled(d, a, keep, 0)[0 := base] == Numbered([base] + KeptContents(d, a, keep))
  {
    RollWhileTargetsFree(d, a, keep, 0);
    assert Waiting(a, 0) == {};
    var r, c := Rolled(d, a, keep, 0), [base] + KeptContents(d, a, keep);
    forall m: nat | 0 < m <= keep
      ensures c[m] == d[a[m - 1]]
    {
    }
  }

  /** The base file in front, the old archives behind it, cut to maxCount when that is positive. */
  function RolledContents(s: seq<string>, base: string, maxCount: int): (r: seq<string>) {
    [base] + s[..Kept(|s|, maxCount)]
  }

  lemma IndicesList(s: seq<string>)
    ensures Lists(Indices(|s|), Numbered(s)) && KeptContents(Numbered(s), Indices(|s|), |s|) == s
  {
    var d, a := Numbered(s), Indices(|s|);
    forall m: nat
      ensures m in d <==> m in a
    {
      if m < |s| {
        assert a[m] == m;
      }
    }
  }

  lemma {:induction false} KeptPrefix(d: Archives, a: seq<nat>, k: nat, n: nat)
    requires k <= n <= |a| && forall j :: 0 <= j < |a| ==> a[j] in d
    ensures KeptContents(d, a, k) == KeptContents(d, a, n)[..k]
  {
    if k < n {
      KeptPrefix(d, a, k, n - 1);
    }
  }

  /** Contiguous archives stay contiguous, and no rename overwrites anything. */
  lemma ContiguousRoll(s: seq<string>, base: string, maxCount: int)
    ensures var d, a, keep := Numbered(s), Indices(|s|), Kept(|s|, maxCount);
            && Lists(a, d)
            && !Overwrites(d, a, keep, 0)
            && Rolled(d, a, keep, 0)[0 := base] == Numbered(RolledContents(s, base, maxCount))
  {
    var d, a, keep := Numbered(s), Indices(|s|), Kept(|s|, maxCount);
    IndicesList(s);
    RollLosesExactlyWhen(d, a, keep, 0);
    RollKeepsOrder(d, a, keep, base);
    KeptPrefix(d, a, keep, |s|);
  }

  /** The archives after a run of rolling rotations of the given base files, from none. */
  function AfterRolls(history: seq<string>, maxCount: int): (s: seq<string>) {
    if history == [] then []
    else RolledContents(AfterRolls(history[..|history| - 1], maxCount), history[|history| - 1], maxCount)
  }

  function Reversed(s: seq<string>): (r: seq<string>)
    ensures |r| == |s|
  {
    if s == [] then [] else [s[|s| - 1]] + Reversed(s[..|s| - 1])
  }

  lemma NewestFirst(older: seq<string>, base: string, maxCount: int)
    ensures RolledContents(if 0 < maxCount < |older| then older[..maxCount] else older, base, maxCount)
         == if 0 < maxCount < |older| + 1 then ([base] + older)[..maxCount] else [base] + older
  {
    if 0 < maxCount < |older| + 1 {
      assert ([base] + older)[..maxCount] == [base] + older[..maxCount - 1];
    }
  }

  /** After any run the archives are the rotated files, newest first, at most maxCount of them. */
  lemma {:induction false} RollRunKeepsNewest(history: seq<string>, maxCount: int)
    ensures AfterRolls(history, maxCount)
         == if 0 < maxCount < |history| then Reversed(history)[..maxCount] else Reversed(history)
  {
    if history != [] {
      var front := history[..|history| - 1];
      RollRunKeepsNewest(front, maxCount);
      NewestFirst(Reversed(front), history[|history| - 1], maxCount);
    }
  }

  // ---------------------------------------------------------------- sequence numbering

  /** How many of the n listed archives, the oldest ones, a sequence rotation unlinks. */
  function Unlinked(n: nat, maxCount: int): (k: nat)
    ensures k <= n
  {
    if maxCount > 0 && maxCount < n then n - maxCount else 0
  }

  /** The number that the base file gets. */
  function NextIndex(a: seq<nat>): (j: nat) {
    if a == [] then 0 else if |a| - 1 > a[|a| - 1] then |a| else a[|a| - 1] + 1
  }

  function Without(d: Archives, a: seq<nat>, k: nat): (r: Archives)
    requires k <= |a|
  {
    if k == 0 then d else Without(d, a, k - 1) - {a[k - 1]}
  }

  function SequenceRotated(d: Archives, a: seq<nat>, maxCount: int, base: string): (r: Archives) {
    Without(d, a, Unlinked(|a|, maxCount))[NextIndex(a) := base]
  }

  function SequenceListed(a: seq<nat>, maxCount: int): (r: seq<nat>) {
    a[Unlinked(|a|, maxCount)..] + [NextIndex(a)]
  }

  lemma {:induction false} WithoutMeans(d: Archives, a: seq<nat>, k: nat)
    requires Lists(a, d) && k <= |a|
    ensures forall m :: m in Without(d, a, k) <==> m in d && m !in a[..k]
    ensures forall m :: m in Without(d, a, k) ==> Without(d, a, k)[m] == d[m]
  {
    if k > 0 {
      WithoutMeans(d, a, k - 1);
      assert a[..k] == a[..k - 1] + [a[k - 1]];
    }
  }

  /** The base file's number is the successor of the greatest one, and 0 without archives. */
  lemma NextIndexMeans(d: Archives, a: seq<nat>)
    requires Lists(a, d)
    ensures NextIndex(a) == if a == [] then 0 else a[|a| - 1] + 1
  {
    AtLeastPosition(d, a);
  }

  lemma NextIndexAbove(d: Archives, a: seq<nat>)
    requires Lists(a, d)
    ensures forall m :: m in d ==> m < NextIndex(a)
  {
    AtLeastPosition(d, a);
    forall m | m in d
      ensures m < NextIndex(a)
    {
      var i :| 0 <= i < |a| && a[i] == m;
      assert i < |a| - 1 ==> Before(a, i, |a| - 1);
    }
  }

  lemma SplitMembers(d: Archives, a: seq<nat>, k: nat)
    requires Lists(a, d) && k <= |a|
    ensures forall m :: m in a[k..] <==> m in a && m !in a[..k]
  {
    assert a == a[..k] + a[k..];
    forall m | m in a[k..]
      ensures m !in a[..k]
    {
      var q :| k <= q < |a| && a[q] == m;
      forall p | 0 <= p < k
        ensures a[p] != m
      {
        assert Before(a, p, q);
      }
    }
  }

  lemma DropAndAppend(d: Archives, a: seq<nat>, k: nat, j: nat, base: string)
    requires Lists(a, d) && k <= |a| && forall m :: m in d ==> m < j
    ensures Lists(a[k..] + [j], Without(d, a, k)[j := base])
  {
    var d', a' := Without(d, a, k)[j := base], a[k..] + [j];
    WithoutMeans(d, a, k);
    SplitMembers(d, a, k);
    forall i, l | 0 <= i < l < |a'|
      ensures Before(a', i, l)
    {
      assert a[k + i] in a;
      assert l < |a'| - 1 ==> Before(a, k + i, k + l);
    }
  }

  lemma {:induction false} ContentsAfterDrop(d: Archives, a: seq<nat>, k: nat, j: nat, base: string, n: nat)
    requires Lists(a, d) && k <= |a| && (forall m :: m in d ==> m < j) && n <= |a| - k
    requires Lists(a[k..] + [j], Without(d, a, k)[j := base])
    ensures KeptContents(Without(d, a, k)[j := base], a[k..] + [j], n) == KeptContents(d, a, |a|)[k..k + n]
  {
    if n > 0 {
      ContentsAfterDrop(d, a, k, j, base, n - 1);
      WithoutMeans(d, a, k);
      var x := (a[k..] + [j])[n - 1];
      assert x == a[k + n - 1] && x in d;
      assert x in a[k..] + [j];
    }
  }

  /** The base file goes strictly above all archives; exactly the newest maxCount old ones stay. */
  lemma SequenceKeepsNewest(d: Archives, a: seq<nat>, maxCount: int, base: string)
    requires Lists(a, d)
    ensures NextIndex(a) !in d && forall m :: m in d ==> m < NextIndex(a)
    ensures var d', a' := SequenceRotated(d, a, maxCount, base), SequenceListed(a, maxCount);
            && Lists(a', d')
            && KeptContents(d', a', |a'|) == KeptContents(d, a, |a|)[Unlinked(|a|, maxCount)..] + [base]
  {
    var k, j := Unlinked(|a|, maxCount), NextIndex(a);
    NextIndexAbove(d, a);
    DropAndAppend(d, a, k, j, base);
    ContentsAfterDrop(d, a, k, j, base, |a| - k);
    assert (a[k..] + [j])[|a| - k] == j;
  }

  datatype Listing = Listing(d: Archives, a: seq<nat>)

  function NextListing(l: Listing, maxCount: int, base: string): (r: Listing) {
    Listing(SequenceRotated(l.d, l.a, maxCount, base), SequenceListed(l.a, maxCount))
  }

  /** The archives and their listing after a run of sequence rotations of the given base files, from none. */
  function AfterSequence(history: seq<string>, maxCount: int): (r: Listing) {
    if history == [] then Listing(map[], [])
    else NextListing(AfterSequence(history[..|history| - 1], maxCount), maxCount, history[|history| - 1])
  }

  /** The last maxCount + 1 entries of a history; all of them when there is no limit. */
  function Newest(history: seq<string>, maxCount: int): (r: seq<string>) {
    if 0 < maxCount && maxCount + 1 < |history| then history[|history| - (maxCount + 1)..] else history
  }

  lemma NewestStep(front: seq<string>, base: string, maxCount: int)
    ensures Newest(front, maxCount)[Unlinked(|Newest(front, maxCount)|, maxCount)..] + [base]
         == Newest(front + [base], maxCount)
  {
    var kept, history := Newest(front, maxCount), front + [base];
    if 0 < maxCount && maxCount + 1 < |history| {
      assert kept[Unlinked(|kept|, maxCount)..] == front[|front| - maxCount..];
    }
  }

  ghost predicate HoldsNewest(l: Listing, history: seq<string>, maxCount: int) {
    Lists(l.a, l.d) && KeptContents(l.d, l.a, |l.a|) == Newest(history, maxCount)
  }

  lemma SequenceStep(l: Listing, front: seq<string>, maxCount: int, base: string)
    requires HoldsNewest(l, front, maxCount)
    ensures HoldsNewest(NextListing(l, maxCount, base), front + [base], maxCount)
  {
    SequenceKeepsNewest(l.d, l.a, maxCount, base);
    NewestStep(front, base, maxCount);
  }

  /** Over any run index order is age order, and the archives are the newest maxCount + 1 rotated files. */
  lemma {:induction false} SequenceRunKeepsNewest(history: seq<string>, maxCount: int)
    ensures HoldsNewest(AfterSequence(history, maxCount), history, maxCount)
  {
    if history != [] {
      var front, base := history[..|history| - 1], history[|history| - 1];
      assert history == front + [base];
      SequenceRunKeepsNewest(front, maxCount);
      SequenceStep(AfterSequence(front, maxCount), front, maxCount, base);
    }
  }

  // ---------------------------------------------------------------- the listing is determined

  /** Two ascending listings of the same archives are equal, whatever order the directory was read in. */
  lemma {:induction false} ListingUnique(a: seq<nat>, b: seq<nat>)
    requires Ascending(a) && Ascending(b) && forall m :: m in a <==> m in b
    ensures a == b
  {
    if a == [] {
      assert forall i :: 0 <= i < |b| ==> b[i] in b;
    } else {
      assert a[0] in b;
      LastIsGreatest(a);
      LastIsGreatest(b);
      var n := |a| - 1;
      var a', b' := a[..n], b[..|b| - 1];
      assert a == a' + [a[n]] && b == b' + [b[|b| - 1]];
      assert a[n] in b && b[|b| - 1] in a;
      FrontAscends(a);
      FrontAscends(b);
      assert a[n] == b[|b| - 1];
      forall m
        ensures m in a' <==> m in b'
      {
        assert m in a' <==> m in a && m != a[n];
        assert m in b' <==> m in b && m != a[n];
      }
      ListingUnique(a', b');
    }
  }

  lemma LastIsGreatest(a: seq<nat>)
    requires Ascending(a) && a != []
    ensures forall m :: m in a ==> m <= a[|a| - 1]
  {
    forall m | m in a
      ensures m <= a[|a| - 1]
    {
      var i :| 0 <= i < |a| && a[i] == m;
      assert i < |a| - 1 ==> Before(a, i, |a| - 1);
    }
  }

  lemma FrontAscends(a: seq<nat>)
    requires Ascending(a) && a != []
    ensures Ascending(a[..|a| - 1]) && a[|a| - 1] !in a[..|a| - 1]
  {
    var front := a[..|a| - 1];
    forall i, j | 0 <= i < j < |front|
      ensures Before(front, i, j)
    {
      assert Before(a, i, j);
    }
    forall i | 0 <= i < |front|
      ensures front[i] != a[|a| - 1]
    {
      assert Before(a, i, |a| - 1);
    }
  }

  lemma InsertAscends(a: seq<nat>, m: nat, k: nat)
    requires Ascending(a) && m !in a && k <= |a|
    requires (forall i :: 0 <= i < k ==> a[i] <= m) && (k < |a| ==> a[k] > m)
    ensures Ascending(a[..k] + [m] + a[k..])
    ensures forall x :: x in a[..k] + [m] + a[k..] <==> x == m || x in a
  {
    var r := a[..k] + [m] + a[k..];
    assert a == a[..k] + a[k..];
    forall i, j | 0 <= i < j < |r|
      ensures Before(r, i, j)
    {
      var p, q := if i < k then i else i - 1, if j < k then j else j - 1;
      assert i != k && j != k ==> Before(a, p, q);
      assert i == k && k < q ==> Before(a, k, q);
      assert i < k ==> a[i] in a;
    }
  }
}
