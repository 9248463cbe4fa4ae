/** Persisted residency (src/residency.rs): which models the operator wants loaded.  The JSON
    text is kept as its decoded value; a file that does not decode is `Garbage`. */
module Residencies {
  import opened Wrappers

  type Id = string

  const VERSION: nat := 1

  datatype Contents = Garbage | Json(version: nat, resident: set<Id>)

  datatype FileState = Missing | Unreadable | Readable(contents: Contents)

  /** The resident set, and whether changes are saved to the file. */
  datatype ResidencyView = ResidencyView(resident: set<Id>, persists: bool)

  function Parse(contents: Contents): Option<set<Id>> {
    if contents.Json? && contents.version == VERSION then Some(contents.resident) else None
  }

  /** Load for serving: never fails.  `canQuarantine` says whether renaming a bad file away
      succeeds.  Answers the view and the file left behind. */
  function LoadForServing(path: bool, file: FileState, canQuarantine: bool)
    : (ResidencyView, FileState)
  {
    if !path then
      (ResidencyView({}, false), file)
    else
      match file
      case Readable(contents) =>
        (match Parse(contents)
         case Some(resident) => (ResidencyView(resident, true), file)
         case None => (ResidencyView({}, true), if canQuarantine then Missing else file))
      case Missing => (ResidencyView({}, true), file)
      case Unreadable => (ResidencyView({}, false), file)
  }

  /** Mark `id` resident or not.  `saves` says whether writing the file succeeds. */
  function Set(r: ResidencyView, file: FileState, id: Id, resident: bool, saves: bool)
    : (ResidencyView, FileState, Option<bool>)
  {
    if (id in r.resident) == resident then
      (r, file, Some(false))
    else
      var next := if resident then r.resident + {id} else r.resident - {id};
      if r.persists && !saves then
        (r, file, None)
      else
        (r.(resident := next),
         if r.persists then Readable(Json(VERSION, next)) else file,
         Some(true))
  }

  /** What the next start would restore. */
  function Reloaded(file: FileState): set<Id> {
    LoadForServing(true, file, true).0.resident
  }

  /** Memory and file say the same whenever changes are saved at all. */
  predicate Agree(r: ResidencyView, file: FileState) {
    r.persists ==> !file.Unreadable? && Reloaded(file) == r.resident
  }

  // ----- Crashes inside one `Set`

  /** A temporary, and whether its text has reached the disk. */
  datatype Temp = Temp(text: Contents, flushed: bool)

  /** The directory while a file is replaced: the file, and a temporary beside it. */
  datatype Directory = Directory(file: FileState, temp: Option<Temp>)

  /** What replacing a file does: make a temporary, write some or all of the text to it, flush it,
      and rename it over the file.  A temporary that is given up is removed. */
  datatype WriteOp = MakeTemp | WriteTemp(text: Contents) | Flush | RenameTemp | RemoveTemp

  /** What a crash right after `op` leaves.  Text that was not flushed may be lost, so it counts as
      lost. */
  function Apply(d: Directory, op: WriteOp): Directory {
    match op
    case MakeTemp => d.(temp := Some(Temp(Garbage, false)))
    case WriteTemp(text) => if d.temp.Some? then d.(temp := Some(Temp(text, false))) else d
    case Flush => if d.temp.Some? then d.(temp := Some(d.temp.value.(flushed := true))) else d
    case RenameTemp =>
      if d.temp.Some? then Directory(Readable(if d.temp.value.flushed then d.temp.value.text else Garbage), None)
      else d
    case RemoveTemp => d.(temp := None)
  }

  function ApplyAll(d: Directory, ops: seq<WriteOp>): Directory {
    if ops == [] then d else Apply(ApplyAll(d, ops[..|ops| - 1]), ops[|ops| - 1])
  }

  /** The operations of one replacement.  The text may reach the temporary in pieces. */
  function WriteAtomic(pieces: seq<Contents>, next: Contents): seq<WriteOp> {
    [MakeTemp] + seq(|pieces|, i requires 0 <= i < |pieces| => WriteTemp(pieces[i]))
    + [WriteTemp(next), Flush, RenameTemp]
  }

  /** Whatever is done to the temporary, the file changes only by the rename. */
  lemma {:induction false} FileWaitsForRename(d: Directory, ops: seq<WriteOp>)
    requires RenameTemp !in ops
    ensures ApplyAll(d, ops).file == d.file
  {
    if ops != [] {
      FileWaitsForRename(d, ops[..|ops| - 1]);
    }
  }

  lemma {:induction false} TempIsThere(d: Directory, ops: seq<WriteOp>)
    requires d.temp.Some? && RenameTemp !in ops && RemoveTemp !in ops
    ensures ApplyAll(d, ops).temp.Some?
  {
    if ops != [] {
      TempIsThere(d, ops[..|ops| - 1]);
    }
  }

  lemma {:induction false} ApplyJoins(d: Directory, a: seq<WriteOp>, b: seq<WriteOp>)
    ensures ApplyAll(d, a + b) == ApplyAll(ApplyAll(d, a), b)
  {
    if b == [] {
      assert a + b == a;
    } else {
      ApplyJoins(d, a, b[..|b| - 1]);
      assert (a + b)[..|a + b| - 1] == a + b[..|b| - 1];
    }
  }

  /** Done to the end, the replacement puts exactly the new text in place, and leaves no temporary. */
  lemma WriteReplaces(d: Directory, pieces: seq<Contents>, next: Contents)
    ensures ApplyAll(d, WriteAtomic(pieces, next)) == Directory(Readable(next), None)
  {
    var write := seq(|pieces|, i requires 0 <= i < |pieces| => WriteTemp(pieces[i]));
    var made := ApplyAll(d, [MakeTemp]);
    ApplyJoins(d, [MakeTemp], write);
    ApplyJoins(d, [MakeTemp] + write, [WriteTemp(next), Flush, RenameTemp]);
    assert [MakeTemp][..0] == [];
    TempIsThere(made, write);
    EndOfWrite(ApplyAll(made, write), next);
  }

  lemma EndOfWrite(d: Directory, next: Contents)
    requires d.temp.Some?
    ensures ApplyAll(d, [WriteTemp(next), Flush, RenameTemp]) == Directory(Readable(next), None)
  {
    var ops := [WriteTemp(next), Flush, RenameTemp];
    assert ops[..2] == [WriteTemp(next), Flush] && ops[..2][..1] == [WriteTemp(next)] && ops[..1][..0] == [];
    assert ApplyAll(d, []) == d;
    assert ApplyAll(d, [WriteTemp(next)]) == d.(temp := Some(Temp(next, false)));
    assert ApplyAll(d, ops[..2]) == d.(temp := Some(Temp(next, true)));
  }

  /** Without the flush the text may be lost: what is then in place is no contents at all. */
  lemma UnflushedIsLost(d: Directory, next: Contents)
    ensures ApplyAll(d, [MakeTemp, WriteTemp(next), RenameTemp]) == Directory(Readable(Garbage), None)
  {
    var ops := [MakeTemp, WriteTemp(next), RenameTemp];
    assert ops[..2] == [MakeTemp, WriteTemp(next)] && ops[..2][..1] == [MakeTemp] && [MakeTemp][..0] == [];
    assert ApplyAll(d, [MakeTemp]) == d.(temp := Some(Temp(Garbage, false)));
    assert ApplyAll(d, ops[..2]) == d.(temp := Some(Temp(next, false)));
  }

  /** Cut off anywhere before its end, by a crash or by a failure that removes the temporary, it
      leaves the file as it was. */
  lemma WriteCutOff(d: Directory, pieces: seq<Contents>, next: Contents, at: nat)
    requires at < |WriteAtomic(pieces, next)|
    ensures ApplyAll(d, WriteAtomic(pieces, next)[..at]).file == d.file
    ensures ApplyAll(d, WriteAtomic(pieces, next)[..at] + [RemoveTemp]) == Directory(d.file, None)
  {
    var ops := WriteAtomic(pieces, next);
    var done := ops[..at];
    assert forall i | 0 <= i < |ops| - 1 :: ops[i] != RenameTemp;
    FileWaitsForRename(d, done);
    assert (done + [RemoveTemp])[..|done|] == done;
  }

  predicate IsGood(file: FileState) {
    file.Readable? && file.contents.Json? && file.contents.version == 1
  }

  /** Loading never answers more than the file holds, and agrees with what it leaves of it.  Without
      a path, or with a file that cannot be read, nothing is resident and nothing saved; a file of
      another version or none at all is moved away if that succeeds, and nothing is resident. */
  lemma LoadingAgrees(path: bool, file: FileState, canQuarantine: bool)
    ensures var (r, file') := LoadForServing(path, file, canQuarantine);
            && Agree(r, file') && (r.persists ==> r.resident == Reloaded(file))
            && (r.persists <==> path && !file.Unreadable?)
            && r.resident == (if path && IsGood(file) then file.contents.resident else {})
            && file' == if path && file.Readable? && !IsGood(file) && canQuarantine then Missing else file
  {
  }

  /** After every `Set`: exactly the asked change or none, in memory and on file alike; a
      failed save changes neither. */
  lemma SetIsAtomic(r: ResidencyView, file: FileState, id: Id, resident: bool, saves: bool)
    requires Agree(r, file)
    ensures var (r', file', changed) := Set(r, file, id, resident, saves);
            && Agree(r', file')
            && r'.persists == r.persists
            && (changed == None <==> (id in r.resident) != resident && r.persists && !saves)
            && (changed == None ==> r' == r && file' == file)
            && (changed.Some? ==> (changed.value <==> (id in r.resident) != resident))
            && (changed == Some(false) ==> r' == r && file' == file)
            && (changed.Some? ==> (id in r'.resident <==> resident))
            && (forall other | other != id :: other in r'.resident <==> other in r.resident)
            && (!r.persists ==> file' == file)
  {
  }

  /** A crash at any point of a persisted `Set`, with the text written in any pieces: the next start
      restores the set from just before or, once the rename is done, just after it. */
  lemma CrashKeepsOldOrNew(r: ResidencyView, file: FileState, id: Id, resident: bool, pieces: seq<Contents>, at: nat)
    requires Agree(r, file) && r.persists
    requires (id in r.resident) != resident
    requires at <= |WriteAtomic(pieces, Json(VERSION, Set(r, file, id, resident, true).0.resident))|
    ensures var (r', file', _) := Set(r, file, id, resident, true);
            var ops := WriteAtomic(pieces, Json(VERSION, r'.resident));
            var seen := ApplyAll(Directory(file, None), ops[..at]).file;
            && !seen.Unreadable?
            && Reloaded(seen) == (if at < |ops| then r.resident else r'.resident)
            && (at == |ops| ==> seen == file')
  {
    var (r', _, _) := Set(r, file, id, resident, true);
    var next := Json(VERSION, r'.resident);
    var ops := WriteAtomic(pieces, next);
    if at < |ops| {
      WriteCutOff(Directory(file, None), pieces, next, at);
    } else {
      assert ops[..at] == ops;
      WriteReplaces(Directory(file, None), pieces, next);
    }
  }

  // ----- As an object updated in place

  /** The residency file, as the disk holds it. */
  class Disk {
    var file: FileState

    constructor (file: FileState)
      ensures this.file == file
    {
      this.file := file;
    }
  }

  class Residency {
    var resident: set<Id>
    const path: bool
    const disk: Disk

    function View(): ResidencyView
      reads this
    {
      ResidencyView(resident, path)
    }

    constructor Load(path: bool, disk: Disk, canQuarantine: bool)
      modifies disk
      ensures this.disk == disk
      ensures (View(), disk.file) == LoadForServing(path, old(disk.file), canQuarantine)
    {
      var (r, file) := LoadForServing(path, disk.file, canQuarantine);
      this.disk := disk;
      this.path := r.persists;
      this.resident := r.resident;
      new;
      disk.file := file;
    }

    /** Saved first, then taken into memory: a save that fails leaves both as they were. */
    method Mark(id: Id, want: bool, saves: bool) returns (changed: Option<bool>)
      modifies this, disk
      ensures (View(), disk.file, changed)
              == Set(old(View()), old(disk.file), id, want, saves)
    {
      if (id in resident) == want {
        return Some(false);
      }
      var next := resident;
      if want {
        next := next + {id};
      } else {
        next := next - {id};
      }
      if path {
        if !saves {
          return None;
        }
        disk.file := Readable(Json(VERSION, next));
      }
      resident := next;
      changed := Some(true);
    }
  }
}
