/**
 Replacing the two executables by a downloaded version: renames with a rollback, where every operation may
 fail (internal/pkg/processor/common.go). Paths are relative to the program's folder.
 */
module Update {

  type Content = seq<int>

  type Files = map<string, Content>

  const UI := "admin.exe"
  const OLD_UI := "old_admin.exe"
  const NEW_UI := "new_admin.exe"
  const OLD_COMM := "old_communicator.exe"

  datatype Reply = NoReply | BadStatus | Good

  /** Which operations succeed, what a write leaves in the file and which files the extractor writes. */
  datatype World = World(
    removeUi: bool, removeComm: bool,
    reply: Reply, create: bool, readBody: bool, write: bool, body: Content,
    renameComm: bool,
    renameUi: bool, undoComm: bool,
    extract: bool, extracted: Files, restoreComm: bool, restoreUi: bool,
    renameNew: bool, undoUi: bool)

  // A panic: the message of an error that is nil is asked for when only the status is wrong.
  datatype Outcome = Failed | Panicked | Reloading

  function Removed(files: Files, path: string, works: bool): (r: Files) {
    if works then files - {path} else files
  }

  predicate CanRename(files: Files, from: string, works: bool) {
    works && from in files
  }

  function Renamed(files: Files, from: string, to: string, works: bool): (r: Files)
    ensures !CanRename(files, from, works) ==> r == files
  {
    if CanRename(files, from, works) then (files - {from})[to := files[from]] else files
  }

  class Folder {
    var files: Files

    constructor (files: Files)
      ensures this.files == files
    {
      this.files := files;
    }

    method Remove(path: string, works: bool)
      modifies this
      ensures files == Removed(old(files), path, works)
    {
      if works {
        files := files - {path};
      }
    }

    method Rename(from: string, to: string, works: bool) returns (ok: bool)
      modifies this
      ensures ok == CanRename(old(files), from, works) && files == Renamed(old(files), from, to, works)
    {
      ok := works && from in files;
      if ok {
        var content := files[from];
        files := files - {from};
        files := files[to := content];
      }
    }

    /** The part before the first rename. */
    method Download(w: World) returns (r: Outcome, go: bool)
      modifies this
      ensures (files, r, go) == Prepared(old(files), w)
    {
      Remove(OLD_UI, w.removeUi);
      Remove(OLD_COMM, w.removeComm);
      if w.reply.NoReply? {
        return Failed, false;
      }
      if w.reply.BadStatus? {
        return Panicked, false;
      }
      if !w.create {
        return Failed, false;
      }
      ghost var f := files;
      if NEW_UI !in files {
        files := files[NEW_UI := []];
      }
      if !w.readBody {
        return Failed, false;
      }
      files := files[NEW_UI := w.body];
      assert files == f[NEW_UI := w.body];
      return Failed, w.write;
    }

    method UpdateMe(me: string, w: World) returns (r: Outcome)
      modifies this
      ensures (files, r) == Updated(old(files), me, w)
    {
      hide Renamed, CanRename, Prepared;
      var outcome, go := Download(w);
      if !go {
        return outcome;
      }
      var ok := Rename(me, OLD_COMM, w.renameComm);
      if !ok {
        return Failed;
      }
      ok := Rename(UI, OLD_UI, w.renameUi);
      if !ok {
        ok := Rename(OLD_COMM, me, w.undoComm);
        return Failed;
      }
      files := files + w.extracted;
      if !w.extract {
        ok := Rename(OLD_COMM, me, w.restoreComm);
        if !ok {
          return Failed;
        }
        ok := Rename(OLD_UI, UI, w.restoreUi);
        return Failed;
      }
      ok := Rename(NEW_UI, UI, w.renameNew);
      if !ok {
        ok := Rename(OLD_UI, UI, w.undoUi);
        if !ok {
          return Failed;
        }
      }
      r := Reloading;
    }
  }

  // ---------------------------------------------------------------- specification

  // Removing old backups and downloading; `true` when the renames may begin.
  function Prepared(files: Files, w: World): (r: (Files, Outcome, bool)) {
    var f := Removed(Removed(files, OLD_UI, w.removeUi), OLD_COMM, w.removeComm);
    match w.reply
    case NoReply => (f, Failed, false)
    case BadStatus => (f, Panicked, false)
    case Good =>
      if !w.create then (f, Failed, false)
      else if !w.readBody then (if NEW_UI in f then f else f[NEW_UI := []], Failed, false)
      else (f[NEW_UI := w.body], Failed, w.write)
  }

  // From the extraction on, with both executables moved to their old paths.
  function Extracted(f: Files, me: string, w: World): (r: (Files, Outcome)) {
    var g := f + w.extracted;
    if !w.extract then
      var h := Renamed(g, OLD_COMM, me, w.restoreComm);
      (if CanRename(g, OLD_COMM, w.restoreComm) then Renamed(h, OLD_UI, UI, w.restoreUi) else h, Failed)
    else if CanRename(g, NEW_UI, w.renameNew) then (Renamed(g, NEW_UI, UI, w.renameNew), Reloading)
    else (Renamed(g, OLD_UI, UI, w.undoUi), if CanRename(g, OLD_UI, w.undoUi) then Reloading else Failed)
  }

  function Updated(files: Files, me: string, w: World): (r: (Files, Outcome)) {
    var (f, outcome, go) := Prepared(files, w);
    if !go then (f, outcome)
    else if !CanRename(f, me, w.renameComm) then (f, Failed)
    else
      var g := Renamed(f, me, OLD_COMM, w.renameComm);
      if !CanRename(g, UI, w.renameUi) then (Renamed(g, OLD_COMM, me, w.undoComm), Failed)
      else Extracted(Renamed(g, UI, OLD_UI, w.renameUi), me, w)
  }

  /** The program is none of the files the update moves about, and the extractor keeps off them too. */
  predicate Apart(me: string, w: World) {
    && me !in {UI, OLD_UI, NEW_UI, OLD_COMM}
    && w.extracted.Keys !! {UI, OLD_UI, OLD_COMM}
  }

  predicate Same(a: Files, p: string, b: Files, q: string) {
    p in a && q in b && a[p] == b[q]
  }

  lemma NamesDiffer()
    ensures UI != OLD_UI && UI != NEW_UI && UI != OLD_COMM
      && OLD_UI != NEW_UI && OLD_UI != OLD_COMM && NEW_UI != OLD_COMM
  {
    assert |UI| == 9 && |OLD_UI| == 13 && |NEW_UI| == 13 && |OLD_COMM| == 20;
    assert OLD_UI[0] == 'o' && NEW_UI[0] == 'n';
  }

  lemma PreparedKeeps(files: Files, w: World, p: string)
    requires p !in {OLD_UI, NEW_UI, OLD_COMM}
    ensures var f := Prepared(files, w).0; (p in f <==> p in files) && (p in f ==> f[p] == files[p])
  {
  }

  /** Whatever fails, each executable is still at its own or at its old path. */
  lemma Survives(files: Files, me: string, w: World)
    requires Apart(me, w)
    ensures var after := Updated(files, me, w).0;
            && (me in files ==> Same(after, me, files, me) || Same(after, OLD_COMM, files, me))
            && (UI in files ==> Same(after, UI, files, UI) || Same(after, OLD_UI, files, UI))
  {
    NamesDiffer();
    hide Prepared;
    PreparedKeeps(files, w, me);
    PreparedKeeps(files, w, UI);
  }

  /**
   When the update fails up to and including the extraction and the rollback renames work, both executables
   are exactly as before.
   */
  lemma Restores(files: Files, me: string, w: World)
    requires Apart(me, w) && w.undoComm && w.restoreComm && w.restoreUi
    requires !(CanRename(files, me, w.renameComm) && CanRename(files, UI, w.renameUi) && w.extract)
    ensures var (after, outcome) := Updated(files, me, w);
            && outcome != Reloading
            && (me in after <==> me in files) && (me in files ==> after[me] == files[me])
            && (UI in after <==> UI in files) && (UI in files ==> after[UI] == files[UI])
  {
    NamesDiffer();
    hide Prepared;
    PreparedKeeps(files, w, me);
    PreparedKeeps(files, w, UI);
    PreparedGoes(files, w);
  }

  lemma PreparedGoes(files: Files, w: World)
    ensures Prepared(files, w).1 != Reloading
  {
  }

  /** A restart into the new version always has a backup of the old program, and an executable for the panel. */
  lemma ReloadingHasBackup(files: Files, me: string, w: World)
    requires Apart(me, w) && Updated(files, me, w).1 == Reloading
    ensures var after := Updated(files, me, w).0;
            && me in files && UI in files && w.extract
            && Same(after, OLD_COMM, files, me)
            && (if w.renameNew && NEW_UI in w.extracted then UI in after && after[UI] == w.extracted[NEW_UI]
                else if w.renameNew then UI in after && after[UI] == w.body && Same(after, OLD_UI, files, UI)
                else Same(after, UI, files, UI))
  {
    NamesDiffer();
    PreparedKeeps(files, w, me);
    PreparedKeeps(files, w, UI);
  }

  /**
   An update ends in a restart exactly when everything up to the extraction works and the panel is renamed
   to its new or back to its old executable; the program's path then holds what was extracted. It panics
   exactly on an answer with a wrong status.
   */
  lemma ReloadsExactly(files: Files, me: string, w: World)
    requires Apart(me, w)
    ensures var (after, outcome) := Updated(files, me, w);
            && (outcome == Reloading <==>
                  && w.reply == Good && w.create && w.readBody && w.write
                  && me in files && w.renameComm && UI in files && w.renameUi
                  && w.extract && (w.renameNew || w.undoUi))
            && (outcome == Panicked <==> w.reply == BadStatus)
            && (outcome == Reloading && me in w.extracted ==> me in after && after[me] == w.extracted[me])
            && (outcome == Reloading && me !in w.extracted ==> me !in after)
  {
    NamesDiffer();
    PreparedKeeps(files, w, me);
    PreparedKeeps(files, w, UI);
    PreparedBackup(files, w);
    PreparedOutcome(files, w);
    hide Prepared;
  }

  lemma PreparedOutcome(files: Files, w: World)
    ensures var (f, outcome, go) := Prepared(files, w);
            outcome != Reloading && (outcome == Panicked <==> w.reply == BadStatus) && (go ==> NEW_UI in f)
  {
  }

  /**
   Before anything else the two backups of an earlier update are removed, and without a good answer nothing
   else happens.
   */
  lemma BackupsRemoved(files: Files, me: string, w: World)
    requires w.reply != Good
    ensures var after := Updated(files, me, w).0;
            && (forall p :: p in after <==>
                  p in files && !(p == OLD_UI && w.removeUi) && !(p == OLD_COMM && w.removeComm))
            && (forall p :: p in after ==> after[p] == files[p])
  {
  }

  /**
   A download that stops half-way leaves its file: empty or as it was before the answer is read, otherwise
   what was written.
   */
  lemma DownloadLeft(files: Files, me: string, w: World)
    requires w.reply == Good && !(w.create && w.readBody && w.write)
    ensures var after := Updated(files, me, w).0;
            if !w.create then
              (NEW_UI in after <==> NEW_UI in files) && (NEW_UI in files ==> after[NEW_UI] == files[NEW_UI])
            else
              && NEW_UI in after
              && after[NEW_UI] == if w.readBody then w.body else if NEW_UI in files then files[NEW_UI] else []
    ensures Updated(files, me, w).1 == Failed
  {
    NamesDiffer();
  }

  /** Files that take no part are not touched. */
  lemma OthersUntouched(files: Files, me: string, w: World, p: string)
    requires p !in {me, UI, OLD_UI, NEW_UI, OLD_COMM} && p !in w.extracted
    ensures var after := Updated(files, me, w).0; (p in after <==> p in files) && (p in files ==> after[p] == files[p])
  {
    hide Prepared;
    PreparedKeeps(files, w, p);
  }

  // ---------------------------------------------------------------- two updates in a row

  // The update gets as far as renaming whatever program it finds.
  predicate Replaces(files: Files, me: string, w: World) {
    w.reply.Good? && w.create && w.readBody && w.write && w.renameComm && me in files
  }

  // The extractor brings this content back, and no rollback puts something else in its place.
  predicate Redelivers(files: Files, me: string, w: World, content: Content) {
    && Replaces(files, me, w) && w.renameUi && UI in files
    && me in w.extracted && w.extracted[me] == content
    && (w.extract || !w.restoreComm)
  }

  // The original is at its backup path and nowhere else.
  predicate OnlyBackup(files: Files, me: string, content: Content) {
    OLD_COMM in files && files[OLD_COMM] == content && !(me in files && files[me] == content)
  }

  lemma PreparedBackup(files: Files, w: World)
    ensures var (f, _, go) := Prepared(files, w);
            && (go <==> w.reply.Good? && w.create && w.readBody && w.write)
            && (OLD_COMM in f <==> OLD_COMM in files && !w.removeComm)
            && (OLD_COMM in f ==> f[OLD_COMM] == files[OLD_COMM])
  {
    NamesDiffer();
  }

  // A lone backup through one more update.
  lemma BackupSurvivesExactly(files: Files, me: string, w: World, content: Content)
    requires Apart(me, w) && OnlyBackup(files, me, content)
    ensures var after := Updated(files, me, w).0;
            (me in after && after[me] == content) || (OLD_COMM in after && after[OLD_COMM] == content)
            <==> (!w.removeComm && !Replaces(files, me, w)) || Redelivers(files, me, w, content)
  {
    NamesDiffer();
    PreparedKeeps(files, w, me);
    PreparedKeeps(files, w, UI);
    PreparedBackup(files, w);
    hide Prepared;
  }

  /**
   What survives one update need not survive two. After any first update the original program is still there
   after a second one exactly when the first left it in its place, or the second neither removes the backup
   nor moves another program over it, or the second happens to deliver the original again.
   */
  lemma SecondUpdate(files: Files, me: string, first: World, second: World)
    requires Apart(me, first) && Apart(me, second) && me in files
    ensures var between := Updated(files, me, first).0;
            var after := Updated(between, me, second).0;
            Same(after, me, files, me) || Same(after, OLD_COMM, files, me)
            <==> Same(between, me, files, me)
                 || (!second.removeComm && !Replaces(between, me, second))
                 || Redelivers(between, me, second, files[me])
  {
    hide Updated, Replaces, Redelivers, Apart;
    Survives(files, me, first);
    var between := Updated(files, me, first).0;
    if Same(between, me, files, me) {
      SecondUpdateSafe(files, me, first, second);
    } else {
      BackupSurvivesExactly(between, me, second, files[me]);
    }
  }

  /** If the first update left or put the program back in its place, two updates are as safe as one. */
  lemma SecondUpdateSafe(files: Files, me: string, first: World, second: World)
    requires Apart(me, first) && Apart(me, second) && Same(Updated(files, me, first).0, me, files, me)
    ensures var after := Updated(Updated(files, me, first).0, me, second).0;
            Same(after, me, files, me) || Same(after, OLD_COMM, files, me)
  {
    hide Updated;
    Survives(Updated(files, me, first).0, me, second);
  }

  /**
   A first update that extracts a new program and then fails at both renames of the panel, and a second one
   that gets no answer, and the original is gone.
   */
  lemma LostInTwo(me: string)
    requires me !in {UI, OLD_UI, NEW_UI, OLD_COMM}
    ensures var files := map[me := [1], UI := [2]];
            var first := World(true, true, Good, true, true, true, [], true, true, true,
                               true, map[me := [3]], true, true, false, false);
            var second := first.(reply := NoReply);
            var (between, outcome) := Updated(files, me, first);
            var after := Updated(between, me, second).0;
            && Apart(me, first) && outcome == Failed
            && !Same(after, me, files, me) && !Same(after, OLD_COMM, files, me)
  {
    NamesDiffer();
    var files: Files := map[me := [1], UI := [2]];
    var first := World(true, true, Good, true, true, true, [], true, true, true,
                       true, map[me := [3]], true, true, false, false);
    var second := first.(reply := NoReply);
    NewProgram(files, me, first);
    SecondUpdate(files, me, first, second);
  }

  lemma NewProgram(files: Files, me: string, w: World)
    requires Apart(me, w) && Replaces(files, me, w) && w.renameUi && UI in files && w.extract && me in w.extracted
    requires !w.renameNew && !w.undoUi
    ensures Updated(files, me, w).1 == Failed && Same(Updated(files, me, w).0, me, w.extracted, me)
  {
    NamesDiffer();
    PreparedKeeps(files, w, me);
    PreparedKeeps(files, w, UI);
    PreparedBackup(files, w);
    hide Prepared;
  }
}
