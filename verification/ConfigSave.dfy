/** Saving the configuration: a temporary file is written, flushed to disk and renamed over the
    old one, with a crash or an error possible at every step. */
module ConfigSave {
  import DomainMatch
  import opened Options
  import opened RuleConfig

  /** The sections a save takes from the file on disk, and those it takes from memory. */
  datatype Static = Static(server: string, dns: string, githubBackup: string)

  datatype Dynamic = Dynamic(lists: seq<ListConfig>, rules: DomainMatch.Rules, blockListUrls: seq<string>)

  datatype Document = Document(fixed: Static, dynamic: Dynamic)

  /** The text form of documents. */
  datatype Codec = Codec(encode: Document -> string, decode: string -> Option<Document>)

  ghost predicate RoundTrips(codec: Codec) {
    forall d: Document {:trigger codec.encode(d)} :: codec.decode(codec.encode(d)) == Some(d)
  }

  /** What a save writes: the static sections of the existing file if it can be decoded, otherwise
      those in memory. */
  function Merge(codec: Codec, existing: Option<File>, memory: Document): (merged: Document)
    ensures merged.dynamic == memory.dynamic
    ensures existing.None? || codec.decode(existing.value.text).None? ==> merged.fixed == memory.fixed
    ensures existing.Some? && codec.decode(existing.value.text).Some? ==>
              merged.fixed == codec.decode(existing.value.text).value.fixed
  {
    if existing.None? then memory
    else
      var read := codec.decode(existing.value.text);
      if read.Some? then memory.(fixed := read.value.fixed) else memory
  }

  /** A file: what reading it gives, and whether that has reached the disk. */
  datatype File = File(text: string, synced: bool)

  /** `older` are the versions of the main file whose replacement may not have reached the disk. */
  datatype Disk = Disk(main: Option<File>, older: seq<Option<File>>, tmp: Option<File>)

  function CreateTmp(d: Disk): Disk {
    d.(tmp := Some(File("", false)))
  }

  function WriteTmp(d: Disk, text: string): Disk {
    d.(tmp := Some(File(text, false)))
  }

  function SyncTmp(d: Disk): Disk {
    if d.tmp.Some? then d.(tmp := Some(d.tmp.value.(synced := true))) else d
  }

  function RemoveTmp(d: Disk): Disk {
    d.(tmp := None)
  }

  function Rename(d: Disk): Disk {
    if d.tmp.Some? then Disk(d.tmp, d.older + [d.main], None) else d
  }

  /** A power cut: the main file falls back to version k if its replacements were not yet durable,
      and a file that was not flushed holds anything. */
  function Crash(d: Disk, k: nat, mainText: string, tmpText: string): Disk {
    var main := if k < |d.older| then d.older[k] else d.main;
    Disk(Flushed(main, mainText), [], Flushed(d.tmp, tmpText))
  }

  function Flushed(f: Option<File>, text: string): Option<File> {
    if f.Some? && !f.value.synced then Some(File(text, true)) else f
  }

  /** The file system; each operation may fail, and `seen` keeps every state it went through. */
  class FileSystem {
    var disk: Disk
    ghost var seen: seq<Disk>

    constructor (main: Option<File>)
      ensures disk == Disk(main, [], None) && seen == [disk]
    {
      disk := Disk(main, [], None);
      seen := [Disk(main, [], None)];
    }

    method Create(fails: bool)
      modifies this
      ensures disk == (if fails then old(disk) else CreateTmp(old(disk))) && seen == old(seen) + [disk]
    {
      disk := if fails then disk else CreateTmp(disk);
      seen := seen + [disk];
    }

    /** A failing write leaves part of the text. */
    method Write(text: string, written: nat, fails: bool)
      requires written <= |text|
      modifies this
      ensures disk == WriteTmp(old(disk), if fails then text[..written] else text) && seen == old(seen) + [disk]
    {
      disk := WriteTmp(disk, if fails then text[..written] else text);
      seen := seen + [disk];
    }

    method Sync(fails: bool)
      modifies this
      ensures disk == (if fails then old(disk) else SyncTmp(old(disk))) && seen == old(seen) + [disk]
    {
      disk := if fails then disk else SyncTmp(disk);
      seen := seen + [disk];
    }

    method Replace(fails: bool)
      modifies this
      ensures disk == (if fails then old(disk) else Rename(old(disk))) && seen == old(seen) + [disk]
    {
      disk := if fails then disk else Rename(disk);
      seen := seen + [disk];
    }

    method Remove()
      modifies this
      ensures disk == RemoveTmp(old(disk)) && seen == old(seen) + [disk]
    {
      disk := RemoveTmp(disk);
      seen := seen + [disk];
    }
  }

  /** Which operations of a save fail. */
  datatype Faults = Faults(path: bool, open: bool, create: bool, write: bool, written: nat, sync: bool, close: bool,
      rename: bool)

  /** The main file is durable and holds the old or the complete new text. */
  ghost predicate OldOrNew(d: Disk, before: Disk, text: string) {
    (d.main == before.main && d.older == before.older) ||
    (d.main == Some(File(text, true)) && d.older == before.older + [before.main])
  }

  /** One save. It succeeds exactly when no operation fails; then the main file holds the merged
      document, otherwise it is unchanged; whatever the file system went through on the way, the main
      file held the old or the complete new text; and no temporary file is left behind. */
  method SaveConfig(fs: FileSystem, codec: Codec, memory: Document, faults: Faults) returns (ok: bool)
    modifies fs
    ensures var text := codec.encode(Merge(codec, old(fs.disk).main, memory));
            (ok <==>
               fs.disk.main == Some(File(text, true)) && fs.disk.older == old(fs.disk).older + [old(fs.disk).main]) &&
            (!ok ==> fs.disk.main == old(fs.disk).main && fs.disk.older == old(fs.disk).older) &&
            old(fs.seen) <= fs.seen &&
            forall k :: |old(fs.seen)| <= k < |fs.seen| ==> OldOrNew(fs.seen[k], old(fs.disk), text)
    ensures ok <==>
            !(faults.path || (faults.open && old(fs.disk).main.Some?) || faults.create || faults.write ||
              faults.sync || faults.close || faults.rename)
    ensures fs.disk.tmp ==
            if faults.path || (faults.open && old(fs.disk).main.Some?) || faults.create then old(fs.disk).tmp else None
  {
    if faults.path || (faults.open && fs.disk.main.Some?) {
      return false;
    }
    var text := codec.encode(Merge(codec, fs.disk.main, memory));
    fs.Create(faults.create);
    if faults.create {
      return false;
    }
    fs.Write(text, if faults.written <= |text| then faults.written else |text|, faults.write);
    if faults.write {
      fs.Remove();
      return false;
    }
    fs.Sync(faults.sync);
    if faults.sync {
      fs.Remove();
      return false;
    }
    if faults.close {
      fs.Remove();
      return false;
    }
    fs.Replace(faults.rename);
    if faults.rename {
      fs.Remove();
      return false;
    }
    return true;
  }

  // Runs of edits, saves and crashes.

  /** Where the process is: not running, idle, or in a save of a document. */
  datatype Phase =
    | Down
    | Ready
    | Creating(doc: Document)
    | Writing(doc: Document)
    | Syncing(doc: Document)
    | Renaming(doc: Document)

  datatype State = State(disk: Disk, memory: Document, phase: Phase)

  datatype Event =
    | Load
    | Edit(dynamic: Dynamic)
    | BeginSave
    | Proceed(written: nat)
    | Fail
    | PowerCut(k: nat, mainText: string, tmpText: string)

  /** The effect of an event; one that is not possible changes nothing. The lock held by a save keeps
      edits out. A write proceeds in parts of any length. */
  function Next(codec: Codec, s: State, ev: Event): State {
    match ev
    case Load =>
      if s.phase.Down? && s.disk.main.Some? && codec.decode(s.disk.main.value.text).Some?
      then s.(memory := codec.decode(s.disk.main.value.text).value, phase := Ready)
      else s
    case Edit(dynamic) => if s.phase.Ready? then s.(memory := s.memory.(dynamic := dynamic)) else s
    case BeginSave => if s.phase.Ready? then s.(phase := Creating(Merge(codec, s.disk.main, s.memory))) else s
    case Proceed(n) =>
      (match s.phase
       case Creating(doc) => s.(disk := CreateTmp(s.disk), phase := Writing(doc))
       case Writing(doc) =>
         var text := codec.encode(doc);
         if n < |text| then s.(disk := WriteTmp(s.disk, text[..n]))
         else s.(disk := WriteTmp(s.disk, text), phase := Syncing(doc))
       case Syncing(doc) => s.(disk := SyncTmp(s.disk), phase := Renaming(doc))
       case Renaming(doc) => s.(disk := Rename(s.disk), phase := Ready)
       case _ => s)
    case Fail =>
      if s.phase.Down? || s.phase.Ready? then s
      else s.(disk := if s.phase.Creating? then s.disk else RemoveTmp(s.disk), phase := Ready)
    case PowerCut(k, mainText, tmpText) => s.(disk := Crash(s.disk, k, mainText, tmpText), phase := Down)
  }

  function Run(codec: Codec, s: State, evs: seq<Event>): State {
    if evs == [] then s else Next(codec, Run(codec, s, evs[..|evs| - 1]), evs[|evs| - 1])
  }

  /** Before the program starts: a file on disk, and whatever memory will be overwritten. */
  function Booting(main: File, memory: Document): State {
    State(Disk(Some(main), [], None), memory, Down)
  }

  /** A durable file that decodes, with the given static sections. */
  ghost predicate GoodFile(codec: Codec, f: Option<File>, fixed: Static) {
    f.Some? && f.value.synced && codec.decode(f.value.text).Some? && codec.decode(f.value.text).value.fixed == fixed
  }

  ghost predicate GoodDisk(codec: Codec, d: Disk, fixed: Static) {
    GoodFile(codec, d.main, fixed) && forall k :: 0 <= k < |d.older| ==> GoodFile(codec, d.older[k], fixed)
  }

  /** The document a save is about. */
  function Saving(p: Phase): Option<Document> {
    if p.Down? || p.Ready? then None else Some(p.doc)
  }

  ghost predicate Good(codec: Codec, s: State, fixed: Static) {
    GoodDisk(codec, s.disk, fixed) &&
    (Saving(s.phase).Some? ==> Saving(s.phase).value == Document(fixed, s.memory.dynamic)) &&
    (s.phase.Syncing? ==> s.disk.tmp.Some? && s.disk.tmp.value.text == codec.encode(s.phase.doc)) &&
    (s.phase.Renaming? ==> s.disk.tmp == Some(File(codec.encode(s.phase.doc), true)))
  }

  lemma {:induction false} NextGood(codec: Codec, s: State, ev: Event, fixed: Static)
    requires RoundTrips(codec) && Good(codec, s, fixed)
    ensures Good(codec, Next(codec, s, ev), fixed)
  {
    if ev.Proceed? && s.phase.Renaming? {
      assert codec.decode(codec.encode(s.phase.doc)) == Some(s.phase.doc);
    }
  }

  /** Over every run of edits, saves, errors and power cuts, starting from a file that decodes, the
      file always decodes and its static sections are the ones it started with. */
  lemma {:induction false} AlwaysDecodable(codec: Codec, main: File, memory: Document, evs: seq<Event>)
    requires RoundTrips(codec) && main.synced && codec.decode(main.text).Some?
    ensures Good(codec, Run(codec, Booting(main, memory), evs), codec.decode(main.text).value.fixed)
  {
    hide Next, RoundTrips;
    if evs != [] {
      AlwaysDecodable(codec, main, memory, evs[..|evs| - 1]);
      NextGood(codec, Run(codec, Booting(main, memory), evs[..|evs| - 1]), evs[|evs| - 1],
               codec.decode(main.text).value.fixed);
    }
  }

  /** When a save ends well, loading the file gives back the sections in memory. */
  lemma {:induction false} SavedIsLoaded(codec: Codec, main: File, memory: Document, evs: seq<Event>, n: nat)
    requires RoundTrips(codec) && main.synced && codec.decode(main.text).Some?
    requires Run(codec, Booting(main, memory), evs).phase.Renaming?
    ensures var s := Run(codec, Booting(main, memory), evs);
            var s' := Next(codec, s, Proceed(n));
            s'.phase.Ready? && s'.memory == s.memory &&
            s'.disk.main.Some? && codec.decode(s'.disk.main.value.text) ==
                Some(Document(codec.decode(main.text).value.fixed, s'.memory.dynamic))
  {
    hide Run;
    AlwaysDecodable(codec, main, memory, evs);
    var s := Run(codec, Booting(main, memory), evs);
    assert codec.decode(codec.encode(s.phase.doc)) == Some(s.phase.doc);
  }

  /** Event n of the run begins a save of the document, which is what memory and the file then on
      disk merge to. */
  ghost predicate BeginsSave(codec: Codec, start: State, evs: seq<Event>, n: nat, doc: Document) {
    n < |evs| && evs[n] == BeginSave &&
    var s := Run(codec, start, evs[..n]);
    s.phase.Ready? && doc == Merge(codec, s.disk.main, s.memory)
  }

  /** Some save of the run was begun for the document. */
  ghost predicate Begun(codec: Codec, start: State, evs: seq<Event>, doc: Document) {
    exists n: nat :: BeginsSave(codec, start, evs, n, doc)
  }

  /** Event n of the run completes a save of the document, begun before, by renaming its file. */
  ghost predicate Completes(codec: Codec, start: State, evs: seq<Event>, n: nat, doc: Document) {
    n < |evs| && evs[n].Proceed? && Run(codec, start, evs[..n]).phase == Renaming(doc) &&
    Begun(codec, start, evs[..n], doc)
  }

  /** Some save of the run was completed for the document. */
  ghost predicate Completed(codec: Codec, start: State, evs: seq<Event>, doc: Document) {
    exists n: nat :: Completes(codec, start, evs, n, doc)
  }

  /** The file is the first one, or the complete text of a document whose save was completed. */
  ghost predicate OldOrSaved(codec: Codec, start: State, evs: seq<Event>, f: Option<File>) {
    f == start.disk.main || exists doc :: Completed(codec, start, evs, doc) && f == Some(File(codec.encode(doc), true))
  }

  lemma BegunStays(codec: Codec, start: State, evs: seq<Event>)
    requires evs != []
    ensures forall doc :: Begun(codec, start, evs[..|evs| - 1], doc) ==> Begun(codec, start, evs, doc)
  {
    var front := evs[..|evs| - 1];
    forall doc | Begun(codec, start, front, doc)
      ensures Begun(codec, start, evs, doc)
    {
      var n: nat :| BeginsSave(codec, start, front, n, doc);
      assert front[..n] == evs[..n];
      assert BeginsSave(codec, start, evs, n, doc);
    }
  }

  lemma OldOrSavedStays(codec: Codec, start: State, evs: seq<Event>, f: Option<File>)
    requires evs != [] && OldOrSaved(codec, start, evs[..|evs| - 1], f)
    ensures OldOrSaved(codec, start, evs, f)
  {
    hide Run, Begun;
    var front := evs[..|evs| - 1];
    if f != start.disk.main {
      var doc :| Completed(codec, start, front, doc) && f == Some(File(codec.encode(doc), true));
      var n: nat :| Completes(codec, start, front, n, doc);
      assert front[..n] == evs[..n];
      assert Completes(codec, start, evs, n, doc);
    }
  }

  /** In every run, the main file and every version of it that a power cut may bring back is the first
      one or the complete text of a document whose save was begun and completed in the run; what a
      save is writing is what that save was begun for. */
  lemma {:induction false} OldOrComplete(codec: Codec, main: File, memory: Document, evs: seq<Event>)
    requires RoundTrips(codec) && main.synced && codec.decode(main.text).Some?
    ensures var start := Booting(main, memory);
            var s := Run(codec, start, evs);
            OldOrSaved(codec, start, evs, s.disk.main) &&
            (forall k :: 0 <= k < |s.disk.older| ==> OldOrSaved(codec, start, evs, s.disk.older[k])) &&
            (Saving(s.phase).Some? ==> Begun(codec, start, evs, Saving(s.phase).value))
  {
    hide RoundTrips, Good, Begun, OldOrSaved;
    var start := Booting(main, memory);
    if evs == [] {
      assert OldOrSaved(codec, start, evs, start.disk.main) by { FirstIsOld(codec, start, evs); }
    } else {
      var front := evs[..|evs| - 1];
      var before, s := Run(codec, start, front), Run(codec, start, evs);
      OldOrComplete(codec, main, memory, front);
      AlwaysDecodable(codec, main, memory, front);
      GoodFacts(codec, before, codec.decode(main.text).value.fixed);
      BegunStays(codec, start, evs);
      OldOrSavedStays(codec, start, evs, before.disk.main);
      forall k | 0 <= k < |before.disk.older|
        ensures OldOrSaved(codec, start, evs, before.disk.older[k])
      {
        OldOrSavedStays(codec, start, evs, before.disk.older[k]);
      }
      LastBegins(codec, start, evs);
      if evs[|evs| - 1].Proceed? && before.phase.Renaming? {
        SavedIsComplete(codec, start, evs, before.phase.doc);
      }
    }
  }

  lemma FirstIsOld(codec: Codec, start: State, evs: seq<Event>)
    ensures OldOrSaved(codec, start, evs, start.disk.main)
  {
  }

  lemma SavedIsComplete(codec: Codec, start: State, evs: seq<Event>, doc: Document)
    requires evs != [] && evs[|evs| - 1].Proceed?
    requires var front := evs[..|evs| - 1];
             Run(codec, start, front).phase == Renaming(doc) && Begun(codec, start, front, doc)
    ensures OldOrSaved(codec, start, evs, Some(File(codec.encode(doc), true)))
  {
    hide Begun;
    assert Completes(codec, start, evs, |evs| - 1, doc);
  }

  lemma LastBegins(codec: Codec, start: State, evs: seq<Event>)
    requires evs != []
    ensures var before := Run(codec, start, evs[..|evs| - 1]);
            evs[|evs| - 1] == BeginSave && before.phase.Ready? ==>
              Begun(codec, start, evs, Merge(codec, before.disk.main, before.memory))
  {
    var before := Run(codec, start, evs[..|evs| - 1]);
    if evs[|evs| - 1] == BeginSave && before.phase.Ready? {
      assert BeginsSave(codec, start, evs, |evs| - 1, Merge(codec, before.disk.main, before.memory));
    }
  }

  /** The document of the save completed last, if there is one. */
  function LastSaved(codec: Codec, s: State, evs: seq<Event>): Option<Document> {
    if evs == [] then None
    else
      var before := Run(codec, s, evs[..|evs| - 1]);
      if evs[|evs| - 1].Proceed? && before.phase.Renaming? then Some(before.phase.doc)
      else LastSaved(codec, s, evs[..|evs| - 1])
  }

  /** From any moment of a run until the next power cut, the main file is what the save completed last
      wrote, or stays as it was; a power cut leaves it, or brings back a version before it, unharmed. */
  lemma {:induction false} LastSavedStands(codec: Codec, main: File, memory: Document, before: seq<Event>,
      since: seq<Event>)
    requires RoundTrips(codec) && main.synced && codec.decode(main.text).Some?
    requires forall n :: 0 <= n < |since| ==> !since[n].PowerCut?
    ensures var s := Run(codec, Booting(main, memory), before);
            var saved := LastSaved(codec, s, since);
            var file := Run(codec, Booting(main, memory), before + since).disk.main;
            file == (if saved.Some? then Some(File(codec.encode(saved.value), true)) else s.disk.main) &&
            forall k: nat, t, u :: Next(codec, s, PowerCut(k, t, u)).disk.main ==
                if k < |s.disk.older| then s.disk.older[k] else s.disk.main
    decreases |since|
  {
    hide RoundTrips, Good;
    AlwaysDecodable(codec, main, memory, before);
    GoodFacts(codec, Run(codec, Booting(main, memory), before), codec.decode(main.text).value.fixed);
    if since == [] {
      assert before + since == before;
    } else {
      var front := since[..|since| - 1];
      LastSavedStands(codec, main, memory, before, front);
      assert (before + since)[..|before + since| - 1] == before + front;
      AlwaysDecodable(codec, main, memory, before + front);
      GoodFacts(codec, Run(codec, Booting(main, memory), before + front), codec.decode(main.text).value.fixed);
      RunConcat(codec, Booting(main, memory), before, front);
    }
  }

  lemma {:induction false} RunConcat(codec: Codec, s: State, a: seq<Event>, b: seq<Event>)
    ensures Run(codec, s, a + b) == Run(codec, Run(codec, s, a), b)
    decreases |b|
  {
    hide Next;
    if b == [] {
      assert a + b == a;
    } else {
      assert (a + b)[..|a + b| - 1] == a + b[..|b| - 1];
      RunConcat(codec, s, a, b[..|b| - 1]);
    }
  }

  predicate Durable(f: Option<File>) {
    f.Some? && f.value.synced
  }

  lemma GoodFacts(codec: Codec, s: State, fixed: Static)
    requires Good(codec, s, fixed)
    ensures Durable(s.disk.main) && forall k :: 0 <= k < |s.disk.older| ==> Durable(s.disk.older[k])
    ensures s.phase.Renaming? ==> s.disk.tmp == Some(File(codec.encode(s.phase.doc), true))
  {
  }

  /** What was in memory when a save was completed is there again after a power cut that keeps the file,
      and a restart, with the static sections of the first file. */
  lemma {:induction false} SavedSurvives(codec: Codec, main: File, memory: Document, evs: seq<Event>, n: nat, k: nat,
      mainText: string, tmpText: string)
    requires RoundTrips(codec) && main.synced && codec.decode(main.text).Some?
    requires Run(codec, Booting(main, memory), evs).phase.Renaming?
    requires k >= |Next(codec, Run(codec, Booting(main, memory), evs), Proceed(n)).disk.older|
    ensures var s := Run(codec, Booting(main, memory), evs);
            var s' := Next(codec, Next(codec, Next(codec, s, Proceed(n)), PowerCut(k, mainText, tmpText)), Load);
            s'.phase.Ready? &&
            s'.memory == Document(codec.decode(main.text).value.fixed, s.memory.dynamic)
  {
    hide Run;
    AlwaysDecodable(codec, main, memory, evs);
    SavedIsLoaded(codec, main, memory, evs, n);
    var s := Run(codec, Booting(main, memory), evs);
    assert codec.decode(codec.encode(s.phase.doc)) == Some(s.phase.doc);
  }
}
