/**
 Replacing a file so that a crash at any point leaves it whole: `config.Save` and the agent's
 self-update. The file system keeps what a running program sees apart from what a crash may
 leave behind: unsynced contents may come back as anything, and of the changes of names any
 number of the latest may be undone.
 */
module CrashFiles {
  import opened Wrappers
  import opened Sequences

  type Path = string
  type Data = seq<nat>

  datatype Inode = Inode(data: Data, synced: bool)

  /** `past`: the name tables the current one came from, any of which a crash may bring back. */
  datatype Fs = Fs(names: map<Path, nat>, inodes: seq<Inode>, past: seq<map<Path, nat>>)

  /** Names lead to inodes, in every table. */
  ghost predicate Wellformed(fs: Fs) {
    forall t, p :: t in Tables(fs) && p in t ==> t[p] < |fs.inodes|
  }

  function Tables(fs: Fs): seq<map<Path, nat>> {
    fs.past + [fs.names]
  }

  /** What a program sees at a path. */
  function Visible(fs: Fs, p: Path): Option<Data> {
    if p in fs.names && fs.names[p] < |fs.inodes| then Some(fs.inodes[fs.names[p]].data) else None
  }

  /** A crash can leave `view`: some table's names, with the contents of all synced files. */
  ghost predicate Survives(fs: Fs, view: map<Path, Data>) {
    exists t :: t in Tables(fs) && view.Keys == t.Keys
                && forall p :: p in t && t[p] < |fs.inodes| && fs.inodes[t[p]].synced ==>
                     view[p] == fs.inodes[t[p]].data
  }

  function Lookup(view: map<Path, Data>, p: Path): Option<Data> {
    if p in view then Some(view[p]) else None
  }

  // ---------- Operations ----------

  function Rebound(fs: Fs, names: map<Path, nat>): Fs {
    fs.(names := names, past := fs.past + [fs.names])
  }

  /** Opening for writing: an existing file is emptied in place, a missing one created. */
  function OpenTrunc(fs: Fs, p: Path): Fs {
    if p in fs.names && fs.names[p] < |fs.inodes| then
      fs.(inodes := fs.inodes[fs.names[p] := Inode([], false)])
    else
      Rebound(fs, fs.names[p := |fs.inodes|]).(inodes := fs.inodes + [Inode([], false)])
  }

  function Append(fs: Fs, p: Path, chunk: Data): Fs {
    if p in fs.names && fs.names[p] < |fs.inodes| then
      var i := fs.names[p];
      fs.(inodes := fs.inodes[i := Inode(fs.inodes[i].data + chunk, false)])
    else fs
  }

  function Sync(fs: Fs, p: Path): Fs {
    if p in fs.names && fs.names[p] < |fs.inodes| then
      var i := fs.names[p];
      fs.(inodes := fs.inodes[i := fs.inodes[i].(synced := true)])
    else fs
  }

  function Rename(fs: Fs, from: Path, to: Path): Fs {
    if from in fs.names then Rebound(fs, (fs.names - {from})[to := fs.names[from]]) else fs
  }

  function Remove(fs: Fs, p: Path): Fs {
    if p in fs.names then Rebound(fs, fs.names - {p}) else fs
  }

  /** The disk. `trace` holds every state it has been in, each a point at which a crash may come. */
  class Disk {
    var fs: Fs
    ghost var trace: seq<Fs>

    constructor (fs: Fs)
      ensures this.fs == fs && trace == [fs]
    {
      this.fs, trace := fs, [fs];
    }

    /** One system call; `ok` is whether it succeeds, and a failed one changes nothing. */
    method Apply(next: Fs, ok: bool) returns (done: bool)
      modifies this
      ensures done == ok
      ensures fs == if ok then next else old(fs)
      ensures trace == old(trace) + [fs]
    {
      if ok { fs := next; }
      trace := trace + [fs];
      done := ok;
    }
  }

  // ---------- config.Save ----------

  /** In every table the path holds a synced file with one of these contents, or is absent if that is allowed. */
  ghost predicate Within(fs: Fs, p: Path, allowed: set<Option<Data>>) {
    forall t :: t in Tables(fs) ==>
      if p in t then t[p] < |fs.inodes| && fs.inodes[t[p]].synced && Some(fs.inodes[t[p]].data) in allowed
      else None in allowed
  }

  /** So a crash leaves one of them. */
  lemma WithinSurvives(fs: Fs, p: Path, allowed: set<Option<Data>>, view: map<Path, Data>)
    requires Within(fs, p, allowed) && Survives(fs, view)
    ensures Lookup(view, p) in allowed
  {
    var t :| t in Tables(fs) && view.Keys == t.Keys
             && forall q :: q in t && t[q] < |fs.inodes| && fs.inodes[t[q]].synced ==> view[q] == fs.inodes[t[q]].data;
    assert p in view <==> p in t;
  }

  /** Writing to `tmp` cannot touch a file any table calls `p`. */
  ghost predicate Apart(fs: Fs, p: Path, tmp: Path) {
    tmp in fs.names ==> forall t :: t in Tables(fs) && p in t ==> t[p] != fs.names[tmp]
  }

  /** Which system calls succeed, and how much of the document gets written. */
  datatype SaveFaults = SaveFaults(
    mkdir: bool, open: bool, encodes: bool, writes: nat, sync: bool, rename: bool, cleanup: bool)

  /** Throughout the trace behind `n`, a crash leaves an old content or the whole new one. */
  ghost predicate CrashSafe(trace: seq<Fs>, n: nat, p: Path, allowed: set<Option<Data>>) {
    forall k :: n <= k < |trace| ==> Within(trace[k], p, allowed)
  }

  lemma TruncWithin(fs: Fs, p: Path, tmp: Path, allowed: set<Option<Data>>)
    requires Wellformed(fs) && Within(fs, p, allowed) && Apart(fs, p, tmp) && p != tmp
    ensures var fs' := OpenTrunc(fs, tmp);
            && Wellformed(fs') && Within(fs', p, allowed) && Apart(fs', p, tmp)
            && tmp in fs'.names && Visible(fs', tmp) == Some([])
            && Visible(fs', p) == Visible(fs, p)
  {
    var fs' := OpenTrunc(fs, tmp);
    assert fs.names in Tables(fs);
    assert forall t :: t in Tables(fs') ==> t in Tables(fs) || t == fs'.names;
  }

  lemma AppendWithin(fs: Fs, p: Path, tmp: Path, chunk: Data, allowed: set<Option<Data>>)
    requires Wellformed(fs) && Within(fs, p, allowed) && Apart(fs, p, tmp) && p != tmp && tmp in fs.names
    ensures var fs' := Append(fs, tmp, chunk);
            && Wellformed(fs') && Within(fs', p, allowed) && Apart(fs', p, tmp)
            && fs'.names == fs.names && Visible(fs', tmp) == Some(Visible(fs, tmp).value + chunk)
            && Visible(fs', p) == Visible(fs, p)
  {
    assert fs.names in Tables(fs);
  }

  lemma SyncWithin(fs: Fs, p: Path, tmp: Path, allowed: set<Option<Data>>)
    requires Wellformed(fs) && Within(fs, p, allowed) && Apart(fs, p, tmp) && p != tmp && tmp in fs.names
    ensures var fs' := Sync(fs, tmp);
            && Wellformed(fs') && Within(fs', p, allowed) && Apart(fs', p, tmp)
            && fs'.names == fs.names && fs'.inodes[fs.names[tmp]].synced && Visible(fs', tmp) == Visible(fs, tmp)
            && Visible(fs', p) == Visible(fs, p)
  {
    assert fs.names in Tables(fs);
  }

  lemma RenameWithin(fs: Fs, p: Path, tmp: Path, allowed: set<Option<Data>>)
    requires Wellformed(fs) && Within(fs, p, allowed) && p != tmp && tmp in fs.names
    requires fs.inodes[fs.names[tmp]].synced
    ensures var fs' := Rename(fs, tmp, p);
            && Wellformed(fs') && Within(fs', p, allowed + {Visible(fs, tmp)}) && Apart(fs', p, tmp)
            && tmp !in fs'.names
            && Visible(fs', p) == Visible(fs, tmp)
  {
    var fs' := Rename(fs, tmp, p);
    assert fs.names in Tables(fs);
    assert forall t :: t in Tables(fs') ==> t in Tables(fs) || t == fs'.names;
  }

  lemma RemoveWithin(fs: Fs, p: Path, tmp: Path, allowed: set<Option<Data>>)
    requires Wellformed(fs) && Within(fs, p, allowed) && p != tmp
    ensures var fs' := Remove(fs, tmp);
            && Wellformed(fs') && Within(fs', p, allowed) && Apart(fs', p, tmp) && Visible(fs', p) == Visible(fs, p)
            && tmp !in fs'.names
  {
    var fs' := Remove(fs, tmp);
    assert fs.names in Tables(fs);
    assert forall t :: t in Tables(fs') ==> t in Tables(fs) || t == fs'.names;
  }

  lemma WithinMore(fs: Fs, p: Path, allowed: set<Option<Data>>, more: set<Option<Data>>)
    requires Within(fs, p, allowed) && allowed <= more
    ensures Within(fs, p, more)
  {
  }

  /**
   `Save`: `document` is the encoded configuration. For every combination of faults and a crash at
   any point the path holds a content it was allowed to hold before or the whole document; after
   success the document is visible, after an error what was there before still is.
   */
  method Save(disk: Disk, path: Path, document: Data, faults: SaveFaults, ghost allowed: set<Option<Data>>)
    returns (ok: bool)
    requires Wellformed(disk.fs) && Within(disk.fs, path, allowed) && Apart(disk.fs, path, path + ".tmp")
    modifies disk
    ensures Wellformed(disk.fs) && old(disk.trace) <= disk.trace
    ensures CrashSafe(disk.trace, |old(disk.trace)|, path, allowed + {Some(document)})
    ensures Within(disk.fs, path, allowed + {Some(document)}) && Apart(disk.fs, path, path + ".tmp")
    ensures Visible(disk.fs, path) == if ok then Some(document) else Visible(old(disk.fs), path)
    ensures ok <==> faults.mkdir && faults.open && faults.encodes && faults.writes >= |document|
                    && faults.sync && faults.rename
    ensures ok ==> disk.fs == Saved(old(disk.fs), path, document)
    ensures ok || (faults.mkdir && faults.open && faults.cleanup) ==> path + ".tmp" !in disk.fs.names
  {
    hide Wellformed, Within, Apart, Visible, OpenTrunc, Append, Sync, Rename, Remove;
    ghost var all := allowed + {Some(document)};
    WithinMore(disk.fs, path, allowed, all);
    if !faults.mkdir { return false; }
    var tmp := path + ".tmp";
    ghost var fs := disk.fs;
    var done := disk.Apply(OpenTrunc(disk.fs, tmp), faults.open);
    if !done { return false; }
    TruncWithin(fs, path, tmp, all);

    // The encoder writes the document in one go; an encoding error or a short write ends it.
    var written := if !faults.encodes then 0 else if faults.writes < |document| then faults.writes else |document|;
    fs := disk.fs;
    done := disk.Apply(Append(disk.fs, tmp, document[..written]), true);
    AppendWithin(fs, path, tmp, document[..written], all);
    if !faults.encodes || written < |document| {
      fs := disk.fs;
      done := disk.Apply(Remove(disk.fs, tmp), faults.cleanup);
      RemoveWithin(fs, path, tmp, all);
      return false;
    }
    assert document[..written] == document && [] + document == document;

    fs := disk.fs;
    done := disk.Apply(Sync(disk.fs, tmp), faults.sync);
    SyncWithin(fs, path, tmp, all);
    if !done {
      fs := disk.fs;
      done := disk.Apply(Remove(disk.fs, tmp), faults.cleanup);
      RemoveWithin(fs, path, tmp, all);
      return false;
    }

    fs := disk.fs;
    done := disk.Apply(Rename(disk.fs, tmp, path), faults.rename);
    RenameWithin(fs, path, tmp, all);
    assert all + {Some(document)} == all;
    if !done {
      fs := disk.fs;
      done := disk.Apply(Remove(disk.fs, tmp), faults.cleanup);
      RemoveWithin(fs, path, tmp, all);
      return false;
    }
    ok := true;
  }

  // ---------- How sharp this is ----------

  /** What is on disk when nothing is lost but the changes of names behind table `t`. */
  function Kept(fs: Fs, t: map<Path, nat>): map<Path, Data> {
    map p | p in t :: if t[p] < |fs.inodes| then fs.inodes[t[p]].data else []
  }

  /** The states behind the system calls of a successful save, with the sync and without it. */
  function Saved(fs: Fs, path: Path, document: Data): Fs {
    var tmp := path + ".tmp";
    Rename(Sync(Append(OpenTrunc(fs, tmp), tmp, document), tmp), tmp, path)
  }

  function SavedUnsynced(fs: Fs, path: Path, document: Data): Fs {
    var tmp := path + ".tmp";
    Rename(Append(OpenTrunc(fs, tmp), tmp, document), tmp, path)
  }

  lemma TableSurvives(fs: Fs, t: map<Path, nat>)
    requires t in Tables(fs)
    ensures Survives(fs, Kept(fs, t))
  {
  }

  /** What is not synced may come back as anything. */
  lemma UnsyncedIsAnything(fs: Fs, p: Path, junk: Data)
    requires p in fs.names && fs.names[p] < |fs.inodes| && !fs.inodes[fs.names[p]].synced
    ensures exists view :: Survives(fs, view) && Lookup(view, p) == Some(junk)
  {
    // Files under other names for the same inode are as uncertain.
    var view := Kept(fs, fs.names)[p := junk];
    assert fs.names in Tables(fs) && view.Keys == fs.names.Keys;
    assert Survives(fs, view) && Lookup(view, p) == Some(junk);
  }

  /** A file opened and written: its own inode has the document, not yet synced, and nothing else changed. */
  lemma WrittenFile(fs: Fs, p: Path, document: Data)
    requires Wellformed(fs)
    ensures var w := Append(OpenTrunc(fs, p), p, document);
            && p in w.names && w.names[p] < |w.inodes| && w.inodes[w.names[p]] == Inode(document, false)
            && w.names == fs.names[p := w.names[p]]
            && |fs.inodes| <= |w.inodes|
            && forall i :: 0 <= i < |fs.inodes| && (p in fs.names ==> i != fs.names[p]) ==> w.inodes[i] == fs.inodes[i]
  {
    assert fs.names in Tables(fs);
    assert [] + document == document;
  }

  /** A rename may have happened, or not, after a crash. */
  lemma RenameMayBeUndone(fs: Fs, from: Path, to: Path)
    requires from in fs.names && fs.names[from] < |fs.inodes|
    requires to in fs.names ==> fs.names[to] < |fs.inodes|
    ensures exists view :: Survives(Rename(fs, from, to), view) && Lookup(view, to) == Visible(fs, to)
    ensures exists view :: Survives(Rename(fs, from, to), view) && Lookup(view, to) == Visible(fs, from)
  {
    var after := Rename(fs, from, to);
    hide Survives;
    assert after.past == fs.past + [fs.names];
    assert fs.names in Tables(after) && after.names in Tables(after);
    TableSurvives(after, fs.names);
    assert Lookup(Kept(after, fs.names), to) == Visible(fs, to);
    TableSurvives(after, after.names);
    assert Lookup(Kept(after, after.names), to) == Visible(fs, from);
  }

  /**
   The directory is never synced: after a successful save a crash may leave the new document, and may as
   well bring back what was there before.
   */
  lemma SaveNotDurable(fs: Fs, path: Path, document: Data)
    requires Wellformed(fs) && Apart(fs, path, path + ".tmp")
    ensures exists view :: Survives(Saved(fs, path, document), view) && Lookup(view, path) == Visible(fs, path)
    ensures exists view :: Survives(Saved(fs, path, document), view) && Lookup(view, path) == Some(document)
  {
    var tmp := path + ".tmp";
    assert |path| < |tmp|;
    assert fs.names in Tables(fs);
    WrittenFile(fs, tmp, document);
    hide OpenTrunc, Append, Wellformed, Survives, Rename, Lookup;
    var synced := Sync(Append(OpenTrunc(fs, tmp), tmp, document), tmp);
    assert Visible(synced, tmp) == Some(document);
    assert Visible(synced, path) == Visible(fs, path);
    RenameMayBeUndone(synced, tmp, path);
  }

  /** The sync is needed: renamed without it, the file may come back from a crash with any content. */
  lemma SyncNeeded(fs: Fs, path: Path, document: Data, junk: Data)
    requires Wellformed(fs)
    ensures exists view :: Survives(SavedUnsynced(fs, path, document), view) && Lookup(view, path) == Some(junk)
  {
    WrittenFile(fs, path + ".tmp", document);
    hide OpenTrunc, Append, Wellformed, Survives;
    UnsyncedIsAnything(SavedUnsynced(fs, path, document), path, junk);
  }

  /** So is the second name: written in place, the file may come back with any content. */
  lemma InPlaceUnsafe(fs: Fs, path: Path, document: Data, junk: Data)
    requires Wellformed(fs)
    ensures var after := Append(OpenTrunc(fs, path), path, document);
            exists view :: Survives(after, view) && Lookup(view, path) == Some(junk)
  {
    WrittenFile(fs, path, document);
    hide OpenTrunc, Append, Wellformed, Survives;
    UnsyncedIsAnything(Append(OpenTrunc(fs, path), path, document), path, junk);
  }

  // ---------- The agent's self-update ----------

  function ToLower(s: string): string {
    seq(|s|, i requires 0 <= i < |s| => if 'A' <= s[i] <= 'Z' then (s[i] as int + 32) as char else s[i])
  }

  /** Upper case goes, and nothing else changes: checksums compare regardless of case. */
  lemma ToLowerMeans(s: string)
    ensures |ToLower(s)| == |s|
    ensures forall i :: 0 <= i < |s| ==>
              && !('A' <= ToLower(s)[i] <= 'Z')
              && (ToLower(s)[i] != s[i] ==>
                    'A' <= s[i] <= 'Z' && ToLower(s)[i] as int - 'a' as int == s[i] as int - 'A' as int)
  {
  }

  /** An update: where the binary lives, its inode and content, the digest and the sum it must have. */
  datatype Update = Update(exec: Path, live: nat, running: Data, digest: Data -> string, expected: string) {
    function Tmp(): Path { exec + ".new" }

    function Backup(): Path { exec + ".old" }

    predicate Verified(data: Data) {
      digest(data) == ToLower(expected)
    }

    /** A name table after which there is a binary to run, or to put back. */
    predicate TableSafe(fs: Fs, t: map<Path, nat>) {
      if exec in t then
        t[exec] < |fs.inodes| && fs.inodes[t[exec]].synced && (t[exec] == live || Verified(fs.inodes[t[exec]].data))
      else Backup() in t && t[Backup()] == live
    }

    ghost predicate Safe(fs: Fs) {
      && live < |fs.inodes| && fs.inodes[live] == Inode(running, true)
      && forall t :: t in Tables(fs) ==> TableSafe(fs, t)
    }

    /** Before the first rename: every table has the old binary in place, and `.new` is another file. */
    ghost predicate Untouched(fs: Fs) {
      && Wellformed(fs)
      && live < |fs.inodes| && fs.inodes[live] == Inode(running, true)
      && (forall t :: t in Tables(fs) ==> exec in t && t[exec] == live)
      && (Tmp() in fs.names ==> fs.names[Tmp()] != live)
    }

    lemma NamesDiffer()
      ensures exec != Tmp() && exec != Backup() && Tmp() != Backup()
    {
      assert Tmp()[|exec| + 1] == 'n' && Backup()[|exec| + 1] == 'o';
    }

    lemma UntouchedSafe(fs: Fs)
      requires Untouched(fs)
      ensures Safe(fs) && Visible(fs, exec) == Some(running)
    {
      assert fs.names in Tables(fs);
    }

    lemma TruncUntouched(fs: Fs)
      requires Untouched(fs)
      ensures var fs' := OpenTrunc(fs, Tmp()); Untouched(fs') && Tmp() in fs'.names && Visible(fs', Tmp()) == Some([])
    {
      NamesDiffer();
      var fs' := OpenTrunc(fs, Tmp());
      assert fs.names in Tables(fs);
      assert forall t :: t in Tables(fs') ==> t in Tables(fs) || t == fs'.names;
    }

    lemma AppendUntouched(fs: Fs, chunk: Data)
      requires Untouched(fs) && Tmp() in fs.names
      ensures var fs' := Append(fs, Tmp(), chunk);
              Untouched(fs') && fs'.names == fs.names && Visible(fs', Tmp()) == Some(Visible(fs, Tmp()).value + chunk)
    {
      assert fs.names in Tables(fs);
    }

    lemma SyncUntouched(fs: Fs)
      requires Untouched(fs) && Tmp() in fs.names
      ensures var fs' := Sync(fs, Tmp());
              && Untouched(fs') && fs'.names == fs.names && Visible(fs', Tmp()) == Visible(fs, Tmp())
              && fs'.inodes[fs.names[Tmp()]].synced
    {
      assert fs.names in Tables(fs);
    }

    lemma RemoveUntouched(fs: Fs)
      requires Untouched(fs)
      ensures Untouched(Remove(fs, Tmp())) && Tmp() !in Remove(fs, Tmp()).names
    {
      NamesDiffer();
      var fs' := Remove(fs, Tmp());
      assert fs.names in Tables(fs);
      assert forall t :: t in Tables(fs') ==> t in Tables(fs) || t == fs'.names;
    }

    /** One more safe name table over the same inodes keeps everything safe. */
    lemma ReboundSafe(fs: Fs, names: map<Path, nat>)
      requires Safe(fs) && TableSafe(fs, names)
      ensures Safe(Rebound(fs, names))
    {
      var fs' := Rebound(fs, names);
      assert forall t :: t in Tables(fs') ==> t in Tables(fs) || t == names;
    }

    /** Between the renames: the old binary waits at `.old`, the verified one at `.new`. */
    ghost predicate Swapping(fs: Fs, data: Data) {
      && Safe(fs)
      && exec !in fs.names
      && Backup() in fs.names && fs.names[Backup()] == live
      && Tmp() in fs.names && fs.names[Tmp()] < |fs.inodes| && fs.inodes[fs.names[Tmp()]] == Inode(data, true)
    }

    lemma BackupStep(fs: Fs, data: Data)
      requires Untouched(fs)
      requires Tmp() in fs.names && fs.inodes[fs.names[Tmp()]] == Inode(data, true)
      ensures Swapping(Rename(fs, exec, Backup()), data)
    {
      NamesDiffer();
      UntouchedSafe(fs);
      assert fs.names in Tables(fs);
      ReboundSafe(fs, (fs.names - {exec})[Backup() := live]);
    }

    lemma ReplaceStep(fs: Fs, data: Data)
      requires Swapping(fs, data) && Verified(data)
      ensures var fs' := Rename(fs, Tmp(), exec); Safe(fs') && exec in fs'.names && Visible(fs', exec) == Some(data)
    {
      NamesDiffer();
      ReboundSafe(fs, (fs.names - {Tmp()})[exec := fs.names[Tmp()]]);
    }

    lemma RestoreStep(fs: Fs, data: Data)
      requires Swapping(fs, data)
      ensures var fs' := Rename(fs, Backup(), exec);
              Safe(fs') && exec in fs'.names && Visible(fs', exec) == Some(running)
    {
      NamesDiffer();
      ReboundSafe(fs, (fs.names - {Backup()})[exec := live]);
    }

    lemma CleanupStep(fs: Fs, p: Path)
      requires Safe(fs)
      requires (p == Tmp() || (p == Backup() && exec in fs.names))
      ensures var fs' := Remove(fs, p);
              && Safe(fs') && Visible(fs', exec) == Visible(fs, exec)
              && (exec in fs'.names <==> exec in fs.names) && p !in fs'.names
              && (p == Tmp() ==> Visible(fs', Backup()) == Visible(fs, Backup()))
    {
      NamesDiffer();
      assert fs.names in Tables(fs);
      if p in fs.names { ReboundSafe(fs, fs.names - {p}); }
    }

    /** What a crash leaves: the old binary or a verified one, or nothing and then the old one at `.old`. */
    lemma SafeSurvives(fs: Fs, view: map<Path, Data>)
      requires Safe(fs) && Survives(fs, view)
      ensures if exec in view then view[exec] == running || Verified(view[exec])
              else Backup() in view && view[Backup()] == running
    {
      var t :| t in Tables(fs) && view.Keys == t.Keys
               && forall p :: p in t && t[p] < |fs.inodes| && fs.inodes[t[p]].synced ==>
                    view[p] == fs.inodes[t[p]].data;
      assert TableSafe(fs, t);
      assert forall p :: p in view <==> p in t;
    }
  }

  datatype UpdateFaults = UpdateFaults(
    get: bool, open: bool, complete: bool, sync: bool, readable: bool,
    backup: bool, replace: bool, restore: bool, cleanup: bool)

  ghost predicate SafeSince(u: Update, trace: seq<Fs>, n: nat) {
    forall k :: n <= k < |trace| ==> u.Safe(trace[k])
  }

  /** `downloadBinary`: `body` is what arrives, piece by piece; `complete` is false if it breaks off. */
  method Download(disk: Disk, u: Update, body: seq<Data>, faults: UpdateFaults) returns (ok: bool)
    requires u.Untouched(disk.fs)
    modifies disk
    ensures u.Untouched(disk.fs) && old(disk.trace) <= disk.trace && SafeSince(u, disk.trace, |old(disk.trace)|)
    ensures ok <==> faults.get && faults.open && faults.complete && faults.sync
    ensures ok ==> u.Tmp() in disk.fs.names && disk.fs.names[u.Tmp()] < |disk.fs.inodes|
    ensures ok ==> disk.fs.inodes[disk.fs.names[u.Tmp()]] == Inode(Flatten(body), true)
  {
    if !faults.get { return false; }
    hide u.Untouched, OpenTrunc, Append, Sync, u.Safe;
    ghost var fs := disk.fs;
    u.UntouchedSafe(fs);
    u.TruncUntouched(fs);
    var done := disk.Apply(OpenTrunc(disk.fs, u.Tmp()), faults.open);
    u.UntouchedSafe(disk.fs);
    if !done { return false; }
    assert body[..0] == [] && Flatten(body[..0]) == [];
    for i := 0 to |body|
      invariant u.Untouched(disk.fs) && u.Tmp() in disk.fs.names
      invariant old(disk.trace) <= disk.trace && SafeSince(u, disk.trace, |old(disk.trace)|)
      invariant Visible(disk.fs, u.Tmp()) == Some(Flatten(body[..i]))
    {
      fs := disk.fs;
      done := disk.Apply(Append(disk.fs, u.Tmp(), body[i]), true);
      u.AppendUntouched(fs, body[i]);
      u.UntouchedSafe(disk.fs);
      FlattenSnoc(body, i);
    }
    if !faults.complete { return false; }
    assert body[..|body|] == body;
    fs := disk.fs;
    u.SyncUntouched(fs);
    done := disk.Apply(Sync(disk.fs, u.Tmp()), faults.sync);
    u.UntouchedSafe(disk.fs);
    ok := done;
  }

  lemma FlattenSnoc<T>(xss: seq<seq<T>>, i: nat)
    requires i < |xss|
    ensures Flatten(xss[..i + 1]) == Flatten(xss[..i]) + xss[i]
  {
    assert xss[..i + 1] == xss[..i] + [xss[i]];
    FlattenConcat(xss[..i], [xss[i]]);
    assert [xss[i]][1..] == [];
    assert Flatten([xss[i]]) == xss[i] + [];
  }

  /**
   The replacement part of `CheckAndUpdate`, up to the re-exec. For every combination of faults and
   a crash at any point there is a whole old or verified binary at the live path, or nothing there
   and the old one at `.old`; after success the live path shows the verified download.
   */
  method ReplaceBinary(disk: Disk, u: Update, body: seq<Data>, faults: UpdateFaults) returns (ok: bool)
    requires u.Untouched(disk.fs)
    modifies disk
    ensures old(disk.trace) <= disk.trace && SafeSince(u, disk.trace, |old(disk.trace)|)
    ensures ok <==>
      && faults.get && faults.open && faults.complete && faults.sync && faults.readable
      && u.digest(Flatten(body)) == ToLower(u.expected)
      && faults.backup && faults.replace
    ensures ok ==> Visible(disk.fs, u.exec) == Some(Flatten(body))
    ensures ok && faults.cleanup ==> u.exec + ".old" !in disk.fs.names
    ensures !ok && faults.get && faults.open && faults.complete && faults.sync && faults.cleanup ==>
      u.exec + ".new" !in disk.fs.names
    ensures !ok ==>
      || Visible(disk.fs, u.exec) == Some(u.running)
      || (!faults.restore && u.exec !in disk.fs.names && Visible(disk.fs, u.Backup()) == Some(u.running))
  {
    hide u.Untouched, u.Safe, Rename, Remove, Visible;
    var downloaded := Download(disk, u, body, faults);
    u.UntouchedSafe(disk.fs);
    if !downloaded { return false; }
    ghost var fs := disk.fs;
    var sum := u.digest(disk.fs.inodes[disk.fs.names[u.Tmp()]].data);
    if !faults.readable || sum != ToLower(u.expected) {
      u.RemoveUntouched(fs);
      var _ := disk.Apply(Remove(disk.fs, u.Tmp()), faults.cleanup);
      u.UntouchedSafe(disk.fs);
      return false;
    }
    u.BackupStep(fs, Flatten(body));
    var done := disk.Apply(Rename(disk.fs, u.exec, u.Backup()), faults.backup);
    if !done {
      fs := disk.fs;
      u.RemoveUntouched(fs);
      var _ := disk.Apply(Remove(disk.fs, u.Tmp()), faults.cleanup);
      u.UntouchedSafe(disk.fs);
      return false;
    }
    fs := disk.fs;
    u.ReplaceStep(fs, Flatten(body));
    done := disk.Apply(Rename(disk.fs, u.Tmp(), u.exec), faults.replace);
    if !done {
      BackupShows(u, fs, Flatten(body));
      u.RestoreStep(fs, Flatten(body));
      var _ := disk.Apply(Rename(disk.fs, u.Backup(), u.exec), faults.restore);
      fs := disk.fs;
      u.CleanupStep(fs, u.Tmp());
      var _ := disk.Apply(Remove(disk.fs, u.Tmp()), faults.cleanup);
      return false;
    }
    fs := disk.fs;
    u.CleanupStep(fs, u.Backup());
    var _ := disk.Apply(Remove(disk.fs, u.Backup()), faults.cleanup);
    ok := true;
  }

  lemma BackupShows(u: Update, fs: Fs, data: Data)
    requires u.Swapping(fs, data)
    ensures Visible(fs, u.Backup()) == Some(u.running)
  {
  }
}
