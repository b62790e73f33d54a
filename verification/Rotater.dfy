/** Log rotation in place: archives are listed, renamed and unlinked on a file system. */
module Rotater {
  import opened Option
  import opened Text
  import opened ArrayList
  import opened ArchiveIndex
  import opened ArchiveFiles
  import opened NumberedFiles

  /** The directory as a map from path to content. A rename silently replaces its target; that is counted. */
  class FileSystem {
    var files: map<string, string>
    var overwritten: nat

    constructor (files: map<string, string>)
      ensures this.files == files && overwritten == 0
    {
      this.files, overwritten := files, 0;
    }

    method Unlink(path: string) returns (rc: int)
      modifies this`files
      ensures rc == (if path in old(files) then 0 else -1) && files == old(files) - {path}
    {
      rc := if path in files then 0 else -1;
      files := files - {path};
    }

    method Rename(from: string, to: string) returns (rc: int)
      modifies this
      ensures rc == (if from in old(files) then 0 else -1)
      ensures files == if rc != 0 || from == to then old(files) else (old(files) - {from})[to := old(files)[from]]
      ensures overwritten == old(overwritten) + if rc == 0 && from != to && to in old(files) then 1 else 0
    {
      if from !in files {
        return -1;
      }
      if from != to {
        if to in files {
          overwritten := overwritten + 1;
        }
        files := (files - {from})[to := files[from]];
      }
      return 0;
    }
  }

  // ---------------------------------------------------------------- what a rotation promises

  /** None of the names that a rolling rotation gives is too long. */
  predicate RollFits(n: Naming, keep: nat) {
    forall j: nat :: j <= keep ==> |n.Path(j)| <= MAXLEN_PATH
  }

  /** The directory after a rotation that succeeded (0) or stopped at a name that is too long (-1). */
  predicate Rolls(before: Files, after: Files, n: Naming, list: seq<File>, maxCount: int, rc: int) {
    var keep := Kept(|list|, maxCount);
    && rc == (if RollFits(n, keep) then 0 else -1)
    && after == if rc == 0 then RollResult(before, n, list, maxCount)
                else RolledFiles(before, n, list, keep, Blocked(n, keep, |list|))
  }

  predicate Sequences(before: Files, after: Files, n: Naming, list: seq<File>, maxCount: int, rc: int) {
    && rc == (if |n.Path(NextNumber(list))| <= MAXLEN_PATH then 0 else -1)
    && after == if rc == 0 then SequenceResult(before, n, list, maxCount)
                else WithoutFiles(before, list, Unlinked(|list|, maxCount))
  }

  /** The new names behind position i are short enough. */
  predicate NamesFit(n: Naming, keep: nat, i: nat) {
    forall j: nat :: i < j <= keep ==> |n.Path(j)| <= MAXLEN_PATH
  }

  lemma {:induction false} BlockedIs(n: Naming, keep: nat, i: nat, len: nat)
    requires i <= len && NamesFit(n, keep, i)
    ensures Blocked(n, keep, len) == Blocked(n, keep, i)
  {
    if i < len {
      BlockedIs(n, keep, i, len - 1);
    }
  }

  // ---------------------------------------------------------------- one rotation

  class Rotater {
    const naming: Naming
    const maxCount: int
    const fs: FileSystem

    constructor (naming: Naming, maxCount: int, fs: FileSystem)
      ensures this.naming == naming && this.maxCount == maxCount && this.fs == fs
    {
      this.naming, this.maxCount, this.fs := naming, maxCount, fs;
    }

    /** zlog_rotater_add_archive_files: every accepted path, in number order. */
    method AddArchiveFiles(listing: seq<string>) returns (list: ArrayList<File>)
      ensures fresh(list) && fresh(list.slots) && list.Valid()
      ensures list.Items() == Somes(Listed(naming, listing))
    {
      list := new ArrayList<File>();
      for k := 0 to |listing|
        invariant fresh(list) && fresh(list.slots) && list.Valid()
        invariant list.Items() == Somes(Listed(naming, listing[..k]))
      {
        assert listing[..k + 1][..k] == listing[..k];
        var file := CheckNew(naming, listing[k]);
        if file.Some? {
          list.SortAdd(file.value, Greater, Listed(naming, listing[..k]));
        }
      }
      assert listing[..|listing|] == listing;
    }

    /** One step of the rolling loop: unlink beyond the kept range, otherwise rename to the next number. */
    method RollOne(file: File, i: nat, ghost before: Files, ghost list: seq<File>) returns (rc: int)
      requires i < |list| && list[i] == file && file.path in fs.files
      requires fs.files == RolledFiles(before, naming, list, Kept(|list|, maxCount), i + 1)
      modifies fs
      ensures var keep := Kept(|list|, maxCount);
              && rc == (if i < keep && MAXLEN_PATH < |naming.Path(i + 1)| then -1 else 0)
              && (rc != 0 ==> fs.files == old(fs.files))
              && (rc == 0 ==> fs.files == RolledFiles(before, naming, list, keep, i))
              && (rc == 0 ==> fs.overwritten == old(fs.overwritten) + RollLosses(before, naming, list, keep, i)
                                                - RollLosses(before, naming, list, keep, i + 1))
    {
      if maxCount > 0 && i >= maxCount - 1 {
        rc := fs.Unlink(file.path);
        return;
      }
      var newPath := naming.Path(i + 1);
      if |newPath| > MAXLEN_PATH {
        return -1;
      }
      rc := fs.Rename(file.path, newPath);
    }

    method RollListed(files: ArrayList<File>, i: nat, ghost before: Files, ghost list: seq<File>) returns (rc: int)
      requires Movable(before, naming, list) && i < |list|
      requires files.Valid() && files.Items() == Somes(list)
      requires fs.files == RolledFiles(before, naming, list, Kept(|list|, maxCount), i + 1)
      modifies fs
      ensures var keep := Kept(|list|, maxCount);
              && rc == (if i < keep && MAXLEN_PATH < |naming.Path(i + 1)| then -1 else 0)
              && fs.files == RolledFiles(before, naming, list, keep, if rc == 0 then i else i + 1)
              && (rc == 0 ==> fs.overwritten == old(fs.overwritten) + RollLosses(before, naming, list, keep, i)
                                                - RollLosses(before, naming, list, keep, i + 1))
    {
      RollFindsFiles(before, naming, list, Kept(|list|, maxCount), i + 1);
      assert files.slots[i] == files.Items()[i];
      rc := RollOne(files.slots[i].value, i, before, list);
    }

    /** The rolling loop, from the last listed file down; it stops at the first name that is too long. */
    method RollLoop(files: ArrayList<File>, ghost list: seq<File>) returns (rc: int)
      requires Movable(fs.files, naming, list)
      requires files.Valid() && files.Items() == Somes(list)
      modifies fs
      ensures rc == if NamesFit(naming, Kept(|list|, maxCount), 0) then 0 else -1
      ensures var keep := Kept(|list|, maxCount);
              fs.files == RolledFiles(old(fs.files), naming, list, keep, Blocked(naming, keep, |list|))
      ensures rc == 0 ==>
          fs.overwritten == old(fs.overwritten)
                            + RollLosses(old(fs.files), naming, list, Kept(|list|, maxCount), 0)
    {
      ghost var before, keep := fs.files, Kept(files.len, maxCount);
      for i := files.len downto 0
        invariant fs.files == RolledFiles(before, naming, list, keep, i)
        invariant fs.overwritten == old(fs.overwritten) + RollLosses(before, naming, list, keep, i)
        invariant NamesFit(naming, keep, i)
      {
        rc := RollListed(files, i, before, list);
        if rc != 0 {
          BlockedIs(naming, keep, i + 1, |list|);
          return;
        }
      }
      BlockedIs(naming, keep, 0, |list|);
      rc := 0;
    }

    /**
     Rolling: each listed file is renamed to its position's successor or unlinked; then the base file becomes
     number 0.
     */
    method RollFiles(files: ArrayList<File>, ghost list: seq<File>) returns (rc: int)
      requires Movable(fs.files, naming, list)
      requires files.Valid() && files.Items() == Somes(list)
      modifies fs
      ensures Rolls(old(fs.files), fs.files, naming, list, maxCount, rc)
      ensures rc == 0 ==>
          fs.overwritten == old(fs.overwritten) + Losses(old(fs.files), naming, list, maxCount)
    {
      ghost var before, keep := fs.files, Kept(files.len, maxCount);
      rc := RollLoop(files, list);
      if rc != 0 {
        return;
      }
      BlockedIs(naming, keep, 0, |list|);
      RollFindsFiles(before, naming, list, keep, 0);
      rc := MoveBase(0);
    }

    /** The last step of both rotations. */
    method MoveBase(j: nat) returns (rc: int)
      requires naming.base in fs.files
      modifies fs
      ensures rc == (if |naming.Path(j)| <= MAXLEN_PATH then 0 else -1)
      ensures fs.files == if rc == 0 then MovedFile(old(fs.files), naming.base, naming.Path(j)) else old(fs.files)
      ensures rc == 0 ==>
          fs.overwritten == old(fs.overwritten)
                            + if naming.Path(j) != naming.base && naming.Path(j) in old(fs.files) then 1 else 0
    {
      var newPath := naming.Path(j);
      if |newPath| > MAXLEN_PATH {
        return -1;
      }
      rc := fs.Rename(naming.base, newPath);
    }

    /** Sequence numbering: the oldest files are unlinked, then the base file gets the next number. */
    method SeqFiles(files: ArrayList<File>, ghost list: seq<File>) returns (rc: int)
      requires Movable(fs.files, naming, list)
      requires files.Valid() && files.Items() == Somes(list)
      modifies fs
      ensures Sequences(old(fs.files), fs.files, naming, list, maxCount, rc)
      ensures var g, p := WithoutFiles(old(fs.files), list, Unlinked(|list|, maxCount)), naming.Path(NextNumber(list));
              rc == 0 ==>
                fs.overwritten == old(fs.overwritten) + if p != naming.base && p in g then 1 else 0
    {
      ghost var before, k := fs.files, Unlinked(files.len, maxCount);
      for i := 0 to files.len
        invariant fs.files == WithoutFiles(before, list, if i < k then i else k)
        invariant fs.overwritten == old(fs.overwritten)
      {
        if maxCount > 0 && i < files.len - maxCount {
          assert files.slots[i] == files.Items()[i];
          rc := fs.Unlink(files.slots[i].value.path);
        }
      }
      BaseStays(before, naming, list, k);
      var j := NumberAfter(files, list);
      rc := MoveBase(j);
    }

    method NumberAfter(files: ArrayList<File>, ghost list: seq<File>) returns (j: nat)
      requires files.Valid() && files.Items() == Somes(list)
      ensures j == NextNumber(list)
    {
      if files.len == 0 {
        return 0;
      }
      assert files.slots[files.len - 1] == files.Items()[files.len - 1];
      var last := files.slots[files.len - 1].value;
      j := (if files.len - 1 > last.index then files.len - 1 else last.index) + 1;
    }

    /**
     zlog_rotater_rotate between lock and unlock, on any directory: nothing happens without a base file or while
     it is small enough; otherwise what was taken for an archive is listed and moved. A failure is a name that is
     too long, and says how far the rotation got.
     */
    method Rotate(sequence: bool, listing: seq<string>, msgLen: nat, maxSize: int) returns (rc: int)
      requires Globbed(listing, fs.files, naming)
      modifies fs
      ensures var due := naming.base in old(fs.files) && |old(fs.files)[naming.base]| + msgLen > maxSize;
              var list := Listed(naming, listing);
              && (!due ==> fs.files == old(fs.files) && fs.overwritten == old(fs.overwritten))
              && (!due ==> rc == if naming.base in old(fs.files) then 0 else -1)
              && (due && !sequence ==> Rolls(old(fs.files), fs.files, naming, list, maxCount, rc))
              && (due && sequence ==> Sequences(old(fs.files), fs.files, naming, list, maxCount, rc))
              && (due && !sequence && rc == 0 ==>
                    fs.overwritten == old(fs.overwritten) + Losses(old(fs.files), naming, list, maxCount))
    {
      if naming.base !in fs.files {
        return -1;
      }
      if |fs.files[naming.base]| + msgLen <= maxSize {
        return 0;
      }
      var files := AddArchiveFiles(listing);
      ghost var list := Listed(naming, listing);
      ListedMovable(fs.files, naming, listing);
      if sequence {
        rc := SeqFiles(files, list);
      } else {
        rc := RollFiles(files, list);
      }
    }

    /**
     Archives without gaps stay without gaps: base file in front, nothing overwritten, at most maxCount left,
     other files as they were; it fails only for a name that is too long.
     */
    method RollNumbered(listing: seq<string>, msgLen: nat, maxSize: int, ghost s: seq<string>) returns (rc: int)
      requires naming.Apart() && naming.Readable()
      requires Shows(fs.files, naming, Numbered(s)) && ListsArchives(listing, naming, fs.files)
      requires naming.base in fs.files && |fs.files[naming.base]| + msgLen > maxSize
      modifies fs
      ensures rc == if RollFits(naming, Kept(|s|, maxCount)) then 0 else -1
      ensures rc == 0 ==>
        && Shows(fs.files, naming, Numbered(RolledContents(s, old(fs.files)[naming.base], maxCount)))
        && naming.base !in fs.files && OthersKept(old(fs.files), fs.files, naming)
        && fs.overwritten == old(fs.overwritten)
    {
      ghost var files, text, a := fs.files, fs.files[naming.base], Indices(|s|);
      ContiguousRoll(s, text, maxCount);
      ListedIsArchives(naming, listing, files, Numbered(s), a);
      RollResultShows(files, naming, Numbered(s), a, maxCount);
      rc := Rotate(false, listing, msgLen, maxSize);
    }
  }
}
