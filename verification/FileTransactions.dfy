/** The next/primary/backup file transaction that makes each stored record atomic. */
module FileTransactions {
  import opened Bytes
  import opened Options

  const MAXIMUM_KEY_CHARACTERS: nat := 21
  const MAXIMUM_RECORD_BYTES: nat := 2048

  type Files = map<string, seq<byte>>

  /**
   A flash file system. Removing and renaming are atomic, and renaming onto an
   existing file may be refused; any operation may report failure, having taken effect
   or not; a file being written may hold
   anything until it is read back. Once the power is cut nothing changes any more,
   so what a method leaves behind includes what it leaves at every crash point.
   */
  class FileSystem {
    var files: Files
    var powered: bool
    const reading: bool   // opening and reading an existing file never fails
    const reliable: bool  // nor does anything else, and the power stays on

    constructor (files: Files, reading: bool, reliable: bool)
      ensures this.files == files && powered && this.reading == reading && this.reliable == reliable
    {
      this.files, powered, this.reading, this.reliable := files, true, reading, reliable;
    }

    /** Whatever changes files works; reading may still fail. */
    predicate Working()
      reads this`powered
    {
      reliable && powered
    }

    predicate Sound()
      reads this`powered
    {
      reading && Working()
    }

    method PowerUp()
      modifies this`powered
      ensures powered
    {
      powered := true;
    }

    /** Whether the next operation takes effect, and whether it is seen to succeed. */
    method Attempt() returns (effect: bool, ok: bool)
      modifies this`powered
      ensures effect ==> old(powered)
      ensures ok ==> effect
      ensures old(Working()) ==> Working() && ok
    {
      effect := *;
      ok := *;
      effect := (effect || reliable) && powered;
      ok := (ok || reliable) && effect;
      var cut: bool := *;
      if cut && !reliable {
        powered := false;
      }
    }

    predicate Exists(path: string)
      reads this`files
    {
      path in files
    }

    method Remove(path: string) returns (ok: bool)
      modifies this
      ensures files == old(files) || files == old(files) - {path}
      ensures ok ==> files == old(files) - {path}
      ensures old(Working()) ==> Working() && ok
    {
      var effect: bool;
      effect, ok := Attempt();
      if effect {
        files := files - {path};
      }
    }

    method Rename(from: string, to: string) returns (ok: bool)
      requires from != to
      modifies this
      ensures files == old(files) || (from in old(files) && files == old(files)[to := old(files)[from]] - {from})
      ensures ok ==> from in old(files) && files == old(files)[to := old(files)[from]] - {from}
      ensures old(Working()) ==> Working() && (to !in old(files) ==> ok == (from in old(files)))
    {
      var effect: bool;
      effect, ok := Attempt();
      var overwrites: bool := *;
      if from !in files || (to in files && !overwrites) {
        return false;
      }
      if effect {
        files := files[to := files[from]] - {from};
      }
    }

    /** Creates a file or truncates it. */
    method Create(path: string) returns (ok: bool)
      modifies this
      ensures files == old(files) || (path in files && files == old(files)[path := files[path]])
      ensures ok ==> path in files
      ensures old(Working()) ==> Working() && ok && files[path] == []
    {
      var effect: bool;
      effect, ok := Attempt();
      if effect {
        files := files[path := []];
      }
    }

    /** Writes to an open file; what it holds is not settled yet. */
    method Append(path: string, chunk: seq<byte>) returns (ok: bool)
      requires path in files
      modifies this
      ensures path in files && files == old(files)[path := files[path]]
      ensures old(Working()) ==> Working() && ok && files[path] == old(files)[path] + chunk
    {
      var effect: bool;
      effect, ok := Attempt();
      if effect {
        var content: seq<byte> := *;
        files := files[path := if reliable then files[path] + chunk else content];
      }
    }

    /** Closing commits whatever reached the flash. */
    method Close(path: string)
      requires path in files
      modifies this
      ensures path in files && files == old(files)[path := files[path]]
      ensures old(Working()) ==> Working() && files[path] == old(files)[path]
    {
      var ok := Append(path, []);
    }

    /** Opens a file for reading; its size. */
    method Open(path: string) returns (size: Option<nat>)
      ensures size.Some? ==> path in files && size.value == |files[path]|
      ensures reading && path in files ==> size.Some?
    {
      var fails: bool := *;
      size := if path in files && (reading || !fails) then Some(|files[path]|) else None;
    }

    method ReadAt(path: string, offset: nat, count: nat) returns (bytes: Option<seq<byte>>)
      requires path in files && offset + count <= |files[path]|
      ensures bytes.Some? ==> bytes.value == files[path][offset..offset + count]
      ensures reading ==> bytes.Some?
    {
      var fails: bool := *;
      bytes := if reading || !fails then Some(files[path][offset..offset + count]) else None;
    }
  }

  // ---- Names ----

  function PrimaryPath(key: string): string { "/flova/" + key + ".bin" }
  function NextPath(key: string): string { PrimaryPath(key) + ".next" }
  function BackupPath(key: string): string { PrimaryPath(key) + ".backup" }

  function PathsOf(key: string): set<string> { {PrimaryPath(key), NextPath(key), BackupPath(key)} }

  predicate KeyCharacter(c: char) {
    'a' <= c <= 'z' || 'A' <= c <= 'Z' || '0' <= c <= '9' || c == '_' || c == '-' || c == '.' || c == ':'
  }

  predicate ValidKey(key: string) {
    && 0 < |key| <= MAXIMUM_KEY_CHARACTERS
    && (forall i :: 0 <= i < |key| ==> KeyCharacter(key[i]))
    && key != "." && key != ".."
  }

  /** Where a record is kept, and which keys can be file names. */
  lemma PathExamples()
    ensures PrimaryPath("net.cfg") == "/flova/net.cfg.bin"
    ensures NextPath("net.cfg") == "/flova/net.cfg.bin.next" && BackupPath("net.cfg") == "/flova/net.cfg.bin.backup"
    ensures ValidKey("net.cfg") && ValidKey("aZ09_-.:") && ValidKey("...") && ValidKey("abcdefghijklmnopqrstu")
    ensures !ValidKey("") && !ValidKey(".") && !ValidKey("..") && !ValidKey("a/b") && !ValidKey("a b")
    ensures !ValidKey("abcdefghijklmnopqrstuv")
    ensures forall c: char | c in "@[`{/;+,^!" :: !KeyCharacter(c)
  {
    assert !KeyCharacter("a/b"[1]) && !KeyCharacter("a b"[1]);
  }

  lemma SuffixApart(p: string, q: string, s: string, t: string)
    requires s != [] && t != [] && s[|s| - 1] != t[|t| - 1]
    ensures p + s != q + t
  {
    assert (p + s)[|p + s| - 1] == s[|s| - 1];
    assert (q + t)[|q + t| - 1] == t[|t| - 1];
  }

  lemma SuffixSame(p: string, q: string, s: string)
    requires p + s == q + s
    ensures p == q
  {
    assert |p| == |q|;
    assert (p + s)[..|p|] == p && (q + s)[..|q|] == q;
  }

  /** Two keys never share a file, although a key may itself contain dots. */
  lemma PathsApart(key: string, other: string)
    ensures key != other ==> PathsOf(key) !! PathsOf(other)
    ensures PrimaryPath(key) != NextPath(key) && PrimaryPath(key) != BackupPath(key) && NextPath(key) != BackupPath(key)
  {
    var p, q := "/flova/" + key, "/flova/" + other;
    forall x, y | (x == p || x == q) && (y == p || y == q)
      ensures x + ".bin" != (y + ".bin") + ".next"
      ensures x + ".bin" != (y + ".bin") + ".backup"
      ensures (x + ".bin") + ".next" != (y + ".bin") + ".backup"
    {
      SuffixApart(x, y + ".bin", ".bin", ".next");
      SuffixApart(x, y + ".bin", ".bin", ".backup");
      SuffixApart(x + ".bin", y + ".bin", ".next", ".backup");
    }
    if p + ".bin" == q + ".bin" {
      SuffixSame(p, q, ".bin");
      assert p[7..] == key && q[7..] == other;
    }
    if NextPath(key) == NextPath(other) {
      SuffixSame(p + ".bin", q + ".bin", ".next");
    }
    if BackupPath(key) == BackupPath(other) {
      SuffixSame(p + ".bin", q + ".bin", ".backup");
    }
  }

  // ---- What a record is worth ----

  predicate Holds(files: Files, path: string, size: nat) {
    path in files && |files[path]| == size
  }

  /** What a read of `size` octets finds: the primary file if its size is right, else the backup. */
  function Value(files: Files, key: string, size: nat): Option<seq<byte>> {
    if Holds(files, PrimaryPath(key), size) then Some(files[PrimaryPath(key)])
    else if Holds(files, BackupPath(key), size) then Some(files[BackupPath(key)])
    else None
  }

  predicate Sized(files: Files, path: string, size: nat) {
    path in files ==> |files[path]| == size
  }

  /** The files of a key that is always stored with one size. */
  predicate OneSize(files: Files, key: string, size: nat) {
    Sized(files, PrimaryPath(key), size) && Sized(files, BackupPath(key), size)
  }

  predicate SameAt(files: Files, before: Files, path: string) {
    (path in files <==> path in before) && (path in files ==> files[path] == before[path])
  }

  /** `files` differ from `before` at most at `paths`. */
  ghost predicate Only(files: Files, before: Files, paths: set<string>) {
    forall p: string :: p !in paths ==> SameAt(files, before, p)
  }

  ghost predicate OnlyKey(files: Files, before: Files, key: string) {
    Only(files, before, PathsOf(key))
  }

  lemma StagedOnlyKey(files: Files, before: Files, key: string)
    requires Only(files, before, {NextPath(key)})
    ensures OnlyKey(files, before, key)
  {
    assert NextPath(key) in PathsOf(key);
  }

  lemma OthersKeepValue(files: Files, before: Files, key: string, other: string, size: nat)
    requires OnlyKey(files, before, key) && key != other
    ensures Value(files, other, size) == Value(before, other, size)
  {
    PathsApart(key, other);
    forall p | p in PathsOf(other)
      ensures SameAt(files, before, p)
    {
      assert p !in PathsOf(key);
    }
    assert PrimaryPath(other) in PathsOf(other) && BackupPath(other) in PathsOf(other);
  }

  /** Retiring the primary file keeps the value exactly when its size is right or the backup's is wrong. */
  lemma RetireKeepsValueIff(files: Files, key: string, size: nat)
    requires PrimaryPath(key) in files
    ensures var retired := files[BackupPath(key) := files[PrimaryPath(key)]] - {PrimaryPath(key)};
            Value(retired, key, size) == Value(files, key, size)
            <==> Holds(files, PrimaryPath(key), size) || !Holds(files, BackupPath(key), size)
  {
    PathsApart(key, key);
  }

  /** A primary file of the right size, or no backup of that size to lose. */
  predicate Retirable(files: Files, key: string, size: nat) {
    PrimaryPath(key) in files ==> Holds(files, PrimaryPath(key), size) || !Holds(files, BackupPath(key), size)
  }

  /** The file a write makes the backup: the primary one, or the backup an earlier write left. */
  function Previous(files: Files, key: string): Option<seq<byte>> {
    if PrimaryPath(key) in files then Some(files[PrimaryPath(key)])
    else if BackupPath(key) in files then Some(files[BackupPath(key)]) else None
  }

  predicate BackupIs(files: Files, key: string, content: Option<seq<byte>>) {
    content == if BackupPath(key) in files then Some(files[BackupPath(key)]) else None
  }

  /** What may be read when either file may fail to open or to be read. */
  predicate MayRead(files: Files, key: string, size: nat, output: Option<seq<byte>>) {
    || output == None
    || (Holds(files, PrimaryPath(key), size) && output == Some(files[PrimaryPath(key)]))
    || (Holds(files, BackupPath(key), size) && output == Some(files[BackupPath(key)]))
  }

  /** A backup that a read would accept holds something else than the primary file. */
  predicate StaleBackup(files: Files, key: string, size: nat) {
    && Holds(files, PrimaryPath(key), size) && Holds(files, BackupPath(key), size)
    && files[PrimaryPath(key)] != files[BackupPath(key)]
  }

  /** Reads that fail part way still never give a wrong value exactly when no stale backup is left. */
  lemma ReadsRightIff(files: Files, key: string, size: nat)
    ensures (forall output :: MayRead(files, key, size, output) ==> output in {None, Value(files, key, size)})
            <==> !StaleBackup(files, key, size)
  {
    if StaleBackup(files, key, size) {
      assert MayRead(files, key, size, Some(files[BackupPath(key)]));
    }
  }

  /** The first step of a removal, cut off there, brings back an older value exactly when a backup was left. */
  lemma RemovedPrimaryGoneIff(files: Files, key: string, size: nat)
    requires Holds(files, PrimaryPath(key), size)
    ensures Value(files - {PrimaryPath(key)}, key, size) == None <==> !Holds(files, BackupPath(key), size)
  {
    PathsApart(key, key);
  }

  /** Files that a write of [2] over [1] leaves when its last step, the removal of the backup, fails. */
  lemma StaleWitness()
    ensures var files: Files := map[PrimaryPath("a") := [2], BackupPath("a") := [1]];
            && Value(files, "a", 1) == Some([2])
            && MayRead(files, "a", 1, Some([1])) && StaleBackup(files, "a", 1)
            && Value(files - {PrimaryPath("a")}, "a", 1) == Some([1])
  {
    PathsApart("a", "a");
    var files: Files := map[PrimaryPath("a") := [2], BackupPath("a") := [1]];
    RemovedPrimaryGoneIff(files, "a", 1);
  }

  class RecordStorage {
    const fs: FileSystem
    var mounted: bool

    constructor (fs: FileSystem)
      ensures this.fs == fs && mounted
    {
      this.fs, mounted := fs, true;
    }

    /** Refuses a key that cannot be a file name. */
    method MakePath(key: string) returns (path: Option<string>)
      ensures path == if ValidKey(key) then Some(PrimaryPath(key)) else None
    {
      if key == "" {
        return None;
      }
      for length := 0 to |key|
        invariant length <= MAXIMUM_KEY_CHARACTERS
        invariant forall i :: 0 <= i < length ==> KeyCharacter(key[i])
      {
        if length >= MAXIMUM_KEY_CHARACTERS {
          return None;
        }
        var value := key[length];
        if !(('a' <= value <= 'z') || ('A' <= value <= 'Z') || ('0' <= value <= '9') || value == '_' || value == '-'
             || value == '.' || value == ':') {
          return None;
        }
      }
      path := if key == "." || key == ".." then None else Some(PrimaryPath(key));
    }

    /** The file a read of `size` octets takes, if there is one. */
    method OpenRecord(path: string, backup: string, size: nat) returns (file: Option<string>)
      ensures file.Some? ==> (file.value == path || file.value == backup) && Holds(fs.files, file.value, size)
      ensures fs.reading ==>
                file == if Holds(fs.files, path, size) then Some(path)
                        else if Holds(fs.files, backup, size) then Some(backup) else None
    {
      var found := fs.Open(path);
      if found == Some(size) {
        return Some(path);
      }
      found := fs.Open(backup);
      if found == Some(size) {
        return Some(backup);
      }
      file := None;
    }

    method Read(key: string, size: nat) returns (output: Option<seq<byte>>)
      ensures output.Some? ==> |output.value| == size
      ensures MayRead(fs.files, key, size, output)
      ensures fs.reading ==>
                output == if mounted && ValidKey(key) && 0 < size <= MAXIMUM_RECORD_BYTES then Value(fs.files, key, size)
                          else None
    {
      if !mounted {
        return None;
      }
      var path := MakePath(key);
      if path.None? || size == 0 || size > MAXIMUM_RECORD_BYTES {
        return None;
      }
      var file := OpenRecord(path.value, BackupPath(key), size);
      if file.None? {
        return None;
      }
      assert fs.files[file.value][0..size] == fs.files[file.value];
      output := fs.ReadAt(file.value, 0, size);
    }

    /** Compares a file with the octets it should hold, 32 at a time. */
    method Matches(path: string, value: seq<byte>) returns (same: bool)
      ensures same ==> path in fs.files && fs.files[path] == value
      ensures fs.reading && path in fs.files && fs.files[path] == value ==> same
    {
      var size := fs.Open(path);
      if size != Some(|value|) {
        return false;
      }
      var offset := 0;
      while offset < |value|
        invariant offset <= |value|
        invariant fs.files[path][..offset] == value[..offset]
        modifies {}
      {
        var count := if |value| - offset < 32 then |value| - offset else 32;
        var chunk := fs.ReadAt(path, offset, count);
        assert fs.files[path][..offset + count] == fs.files[path][..offset] + fs.files[path][offset..offset + count];
        assert value[..offset + count] == value[..offset] + value[offset..offset + count];
        if chunk.None? {
          return false;
        }
        if chunk.value != value[offset..offset + count] {
          return false;
        }
        offset := offset + count;
      }
      assert fs.files[path][..offset] == fs.files[path] && value[..offset] == value;
      same := true;
    }

    /** Writes the record beside the primary file and reads it back; nothing else is touched. */
    method Stage(next: string, value: seq<byte>) returns (ok: bool)
      modifies fs
      ensures Only(fs.files, old(fs.files), {next})
      ensures ok ==> next in fs.files && fs.files[next] == value
      ensures old(fs.Working()) ==> fs.Working()
      ensures old(fs.Sound()) ==> ok
    {
      if fs.Exists(next) {
        var removed := fs.Remove(next);
        if !removed {
          return false;
        }
      }
      var created := fs.Create(next);
      if !created {
        return false;
      }
      var written := 0;
      while written < |value|
        invariant written <= |value| && next in fs.files
        invariant old(fs.Working()) ==> fs.Working() && fs.files[next] == value[..written]
        invariant Only(fs.files, old(fs.files), {next})
      {
        var chunk := if |value| - written < 64 then |value| - written else 64;
        var stored := fs.Append(next, value[written..written + chunk]);
        if !stored {
          fs.Close(next);
          var _ := fs.Remove(next);
          return false;
        }
        assert value[..written + chunk] == value[..written] + value[written..written + chunk];
        written := written + chunk;
      }
      assert value[..written] == value;
      fs.Close(next);
      ok := Matches(next, value);
      if !ok {
        var _ := fs.Remove(next);
      }
    }

    /** Makes the primary file the backup; the value of every size that can be kept stays what it was. */
    method Retire(key: string) returns (ok: bool)
      modifies fs
      ensures OnlyKey(fs.files, old(fs.files), key)
      ensures forall size: nat :: Value(fs.files, key, size) in {Value(old(fs.files), key, size), None}
      ensures forall size: nat | Retirable(old(fs.files), key, size) ::
                Value(fs.files, key, size) == Value(old(fs.files), key, size)
      ensures forall size: nat | old(OneSize(fs.files, key, size)) :: OneSize(fs.files, key, size)
      ensures ok ==> PrimaryPath(key) !in fs.files
      ensures ok ==> BackupIs(fs.files, key, Previous(old(fs.files), key))
      ensures old(fs.Working()) ==> fs.Working() && ok
      ensures ok && NextPath(key) in old(fs.files) ==>
                NextPath(key) in fs.files && fs.files[NextPath(key)] == old(fs.files)[NextPath(key)]
    {
      PathsApart(key, key);
      var path, next, backup := PrimaryPath(key), NextPath(key), BackupPath(key);
      ok := true;
      if fs.Exists(path) {
        if fs.Exists(backup) {
          ok := fs.Remove(backup);
          if !ok {
            var _ := fs.Remove(next);
            return;
          }
        }
        ok := fs.Rename(path, backup);
        if !ok {
          var _ := fs.Remove(next);
        }
      }
    }

    /** Moves the staged file into place, checks it, and falls back to the backup otherwise. */
    method Install(key: string, value: seq<byte>) returns (ok: bool)
      requires PrimaryPath(key) !in fs.files
      requires NextPath(key) in fs.files && fs.files[NextPath(key)] == value
      modifies fs
      ensures OnlyKey(fs.files, old(fs.files), key)
      ensures Value(fs.files, key, |value|) in {Value(old(fs.files), key, |value|), Some(value)}
      ensures forall size: nat | size != |value| ::
                Value(fs.files, key, size) in {Value(old(fs.files), key, size), None}
      ensures old(OneSize(fs.files, key, |value|)) ==> OneSize(fs.files, key, |value|)
      ensures ok ==> Value(fs.files, key, |value|) == Some(value)
      ensures ok ==> BackupPath(key) !in fs.files || SameAt(fs.files, old(fs.files), BackupPath(key))
      ensures ok && old(fs.Working()) ==> BackupPath(key) !in fs.files
      ensures !ok && old(fs.Working()) ==>
                && BackupPath(key) !in fs.files && NextPath(key) !in fs.files
                && (if BackupPath(key) in old(fs.files)
                    then PrimaryPath(key) in fs.files && fs.files[PrimaryPath(key)] == old(fs.files)[BackupPath(key)]
                    else PrimaryPath(key) !in fs.files)
      ensures old(fs.Sound()) ==> ok
    {
      PathsApart(key, key);
      var path, next, backup := PrimaryPath(key), NextPath(key), BackupPath(key);
      ok := fs.Rename(next, path);
      if !ok {
        if !fs.Exists(path) && fs.Exists(backup) {
          var _ := fs.Rename(backup, path);
        }
        return;
      }
      ok := Matches(path, value);
      if !ok {
        var _ := fs.Remove(path);
        if fs.Exists(backup) {
          var _ := fs.Rename(backup, path);
        }
        return;
      }
      var _ := fs.Remove(backup);
    }

    /**
     Replaces the record. Whatever fails and wherever the power is cut, a read
     gives the old value or the new one; the new one if this returns true. Nothing
     is found only by a reader whose size the primary file did not have. A backup
     left by a true result holds the previous record; working storage leaves none.
     */
    method Write(key: string, value: seq<byte>) returns (ok: bool)
      modifies fs
      ensures OnlyKey(fs.files, old(fs.files), key)
      ensures Value(fs.files, key, |value|) in {Value(old(fs.files), key, |value|), Some(value), None}
      ensures Value(fs.files, key, |value|) == None ==>
                Value(old(fs.files), key, |value|) == None || !Retirable(old(fs.files), key, |value|)
      ensures forall size: nat | size != |value| ::
                Value(fs.files, key, size) in {Value(old(fs.files), key, size), None}
      ensures old(OneSize(fs.files, key, |value|)) ==> OneSize(fs.files, key, |value|)
      ensures ok ==> Value(fs.files, key, |value|) == Some(value)
      ensures ok ==> BackupPath(key) !in fs.files || BackupIs(fs.files, key, Previous(old(fs.files), key))
      ensures ok && old(fs.Working()) ==> BackupPath(key) !in fs.files
      ensures ok ==> mounted && ValidKey(key) && 0 < |value| <= MAXIMUM_RECORD_BYTES
      ensures old(fs.Sound()) && mounted && ValidKey(key) && 0 < |value| <= MAXIMUM_RECORD_BYTES ==> ok
    {
      PathsApart(key, key);
      if !mounted {
        return false;
      }
      var path := MakePath(key);
      if path.None? || |value| == 0 || |value| > MAXIMUM_RECORD_BYTES {
        return false;
      }
      ok := Stage(NextPath(key), value);
      StagedOnlyKey(fs.files, old(fs.files), key);
      assert SameAt(fs.files, old(fs.files), PrimaryPath(key)) && SameAt(fs.files, old(fs.files), BackupPath(key));
      if !ok {
        return;
      }
      ok := Retire(key);
      if !ok {
        return;
      }
      ok := Install(key, value);
    }

    /**
     Removes the three files. Cut off or refused part way it can leave the key
     with its value, with nothing, or with an older value the backup still held.
     */
    method Remove(key: string, ghost size: nat) returns (ok: bool)
      modifies fs
      ensures OnlyKey(fs.files, old(fs.files), key)
      ensures Value(fs.files, key, size)
              in {Value(old(fs.files), key, size), Value(old(fs.files) - {PrimaryPath(key)}, key, size), None}
      ensures ok ==> forall p :: p in PathsOf(key) ==> p !in fs.files
      ensures old(fs.Sound()) && mounted && ValidKey(key) ==> ok
    {
      PathsApart(key, key);
      if !mounted {
        return false;
      }
      var path := MakePath(key);
      if path.None? {
        return false;
      }
      var removed := RemoveIfThere(PrimaryPath(key));
      var nextRemoved := RemoveIfThere(NextPath(key));
      var backupRemoved := RemoveIfThere(BackupPath(key));
      ok := removed && nextRemoved && backupRemoved;
    }

    method RemoveIfThere(path: string) returns (ok: bool)
      modifies fs
      ensures fs.files == old(fs.files) || fs.files == old(fs.files) - {path}
      ensures ok ==> path !in fs.files
      ensures old(fs.Sound()) ==> fs.Sound() && ok
    {
      ok := true;
      if fs.Exists(path) {
        ok := fs.Remove(path);
      }
    }
  }

  /** A value at least as new as the last write that returned true. */
  ghost predicate Recent(v: Option<seq<byte>>, values: seq<seq<byte>>, last: int, initial: Option<seq<byte>>)
    requires -1 <= last < |values|
  {
    || v == (if last < 0 then initial else Some(values[last]))
    || exists j: nat :: last < j < |values| && v == Some(values[j])
  }

  /** Nothing of another size is on file or written. */
  predicate Uniform(files: Files, key: string, values: seq<seq<byte>>, size: nat) {
    OneSize(files, key, size) && forall i :: 0 <= i < |values| ==> |values[i]| == size
  }

  /**
   Any run of writes under one key, some failing, some cut off by a loss of power:
   what a reader of `size` octets finds never goes back behind the last write of
   that size that returned true, and no other key is touched. The reader finds
   nothing only if there was nothing or values of another size come into play. `oks`
   is what the writes returned and `last` the last true one of that size.
   */
  method Run(storage: RecordStorage, key: string, values: seq<seq<byte>>, size: nat) returns (last: int, oks: seq<bool>)
    modifies storage.fs
    ensures OnlyKey(storage.fs.files, old(storage.fs.files), key)
    ensures |oks| == |values| && -1 <= last < |values| && (last >= 0 ==> oks[last] && |values[last]| == size)
    ensures forall i :: last < i < |values| && oks[i] ==> |values[i]| != size
    ensures var v, initial := Value(storage.fs.files, key, size), Value(old(storage.fs.files), key, size);
            && (v == None || Recent(v, values, last, initial))
            && (Uniform(old(storage.fs.files), key, values, size) ==> Recent(v, values, last, initial))
  {
    last, oks := -1, [];
    ghost var initial := Value(storage.fs.files, key, size);
    for i := 0 to |values|
      invariant |oks| == i && -1 <= last < i && (last >= 0 ==> oks[last] && |values[last]| == size)
      invariant forall j :: last < j < i && oks[j] ==> |values[j]| != size
      invariant OnlyKey(storage.fs.files, old(storage.fs.files), key)
      invariant var v := Value(storage.fs.files, key, size); v == None || Recent(v, values[..i], last, initial)
      invariant Uniform(old(storage.fs.files), key, values, size) ==>
                  OneSize(storage.fs.files, key, size)
                  && Recent(Value(storage.fs.files, key, size), values[..i], last, initial)
    {
      storage.fs.PowerUp();
      ghost var before := storage.fs.files;
      var ok := storage.Write(key, values[i]);
      OnlyKeyTwice(storage.fs.files, before, old(storage.fs.files), key);
      RecentGrows(Value(before, key, size), Value(storage.fs.files, key, size), values, i, last, initial);
      oks := oks + [ok];
      if ok && |values[i]| == size {
        last := i;
      }
    }
    assert values[..|values|] == values;
  }

  lemma OnlyKeyTwice(files: Files, middle: Files, before: Files, key: string)
    requires OnlyKey(files, middle, key) && OnlyKey(middle, before, key)
    ensures OnlyKey(files, before, key)
  {
    forall p: string | p !in PathsOf(key)
      ensures SameAt(files, before, p)
    {
      assert SameAt(files, middle, p) && SameAt(middle, before, p);
    }
  }

  lemma RecentGrows(v: Option<seq<byte>>, w: Option<seq<byte>>, values: seq<seq<byte>>, i: nat, last: int,
                    initial: Option<seq<byte>>)
    requires -1 <= last < i < |values|
    ensures Recent(v, values[..i], last, initial) && w == v ==> Recent(w, values[..i + 1], last, initial)
    ensures w == Some(values[i]) ==> Recent(w, values[..i + 1], last, initial)
    ensures w == Some(values[i]) ==> Recent(w, values[..i + 1], i, initial)
  {
    var more := values[..i + 1];
    assert more[i] == values[i];
    if Recent(v, values[..i], last, initial) && w == v && v != (if last < 0 then initial else Some(values[last])) {
      var j: nat :| last < j < i && v == Some(values[..i][j]);
      assert more[j] == values[j];
    }
  }
}
