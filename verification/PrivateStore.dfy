/**
 Owner-private stores, where a record is a file and a protected secret. Every primitive may fail,
 and may fail after having taken effect.
 */
module PrivateStore {
  import opened Common

  /** How one primitive went: performed, refused with no effect, or performed and still reported as failed. */
  datatype Io = Done | Refused | Lied

  predicate Effective(io: Io) {
    io != Refused
  }

  datatype InstallFaults = InstallFaults(put: Io, create: Io, write: Io, sync: Io, undoFile: Io, undoSecret: Io)

  datatype RemoveFaults = RemoveFaults(file: Io, secret: Io)

  const NO_INSTALL_FAULTS := InstallFaults(Done, Done, Done, Done, Done, Done)
  const NO_REMOVE_FAULTS := RemoveFaults(Done, Done)

  predicate WriteFails(f: InstallFaults) {
    f.create != Done || f.write != Done || f.sync != Done
  }

  /** The failed installs whose discarded clean-up results hide that something stayed behind. */
  predicate Leaks(f: InstallFaults) {
    || f.put == Lied
    || (f.put == Done && WriteFails(f) &&
        ((Effective(f.create) && f.undoFile == Refused) || f.undoSecret == Refused))
  }

  /** The failed installs after which the record is nevertheless complete and in force. */
  predicate LeavesLive(f: InstallFaults) {
    && f.put == Done && f.create == Done && Effective(f.write) && (f.write != Done || f.sync != Done)
    && f.undoFile == Refused && f.undoSecret == Refused
  }

  /** Files map a name to its record, or to `None` when the content is damaged. */
  class Store<T> {
    var files: map<string, Option<T>>
    var secrets: set<string>

    constructor ()
      ensures files == map[] && secrets == {}
    {
      files, secrets := map[], {};
    }

    predicate Live(name: string)
      reads this
    {
      name in files && files[name].Some? && name in secrets
    }

    /** Create-new: the record and its secret, or an error that leaves both as they were unless clean-up failed. */
    method Install(name: string, record: T, room: bool, f: InstallFaults) returns (ok: bool)
      modifies this
      ensures ok <==>
        && name !in old(files) && room && name !in old(secrets)
        && f.put == Done && f.create == Done && f.write == Done && f.sync == Done
      ensures ok ==> files == old(files)[name := Some(record)] && secrets == old(secrets) + {name}
      ensures forall n :: n in old(files) ==> n in files && files[n] == old(files)[n]
      ensures forall n :: n in files && n !in old(files) ==> n == name && (files[n] == None || files[n] == Some(record))
      ensures old(secrets) <= secrets <= old(secrets) + {name}
      ensures name in old(files) || name in old(secrets) ==> files == old(files) && secrets == old(secrets)
      ensures !ok && name !in old(files) && name !in old(secrets) ==>
        (files != old(files) || secrets != old(secrets) <==> room && Leaks(f))
      ensures !ok && name !in old(files) && name !in old(secrets) ==> (Live(name) <==> room && LeavesLive(f))
      ensures !ok && f.undoFile == Done && f.undoSecret == Done && f.put != Lied ==>
        files == old(files) && secrets == old(secrets)
      ensures !ok && (f.put == Refused || (f.put == Done && f.undoSecret != Refused)) ==> secrets == old(secrets)
      ensures !ok && f.undoFile != Refused ==> files == old(files)
    {
      if name in files { return false; }
      if !room { return false; }
      if name in secrets { return false; }
      if Effective(f.put) { secrets := secrets + {name}; }
      if f.put != Done { return false; }
      ok := false;
      if Effective(f.create) { files := files[name := None]; }
      if f.create == Done {
        if Effective(f.write) { files := files[name := Some(record)]; }
        ok := f.write == Done && f.sync == Done;
      }
      if !ok {
        if Effective(f.undoFile) { files := files - {name}; }
        if Effective(f.undoSecret) { secrets := secrets - {name}; }
      }
    }

    /** The file goes before the secret, and a missing one counts as removed. */
    method Remove(name: string, f: RemoveFaults) returns (ok: bool)
      modifies this
      ensures ok <==> f.file == Done && f.secret == Done
      ensures ok ==> files == old(files) - {name} && secrets == old(secrets) - {name}
      ensures files == if f.file == Refused then old(files) else old(files) - {name}
      ensures secrets == if f.file != Done || f.secret == Refused then old(secrets) else old(secrets) - {name}
      ensures secrets == old(secrets) || (secrets == old(secrets) - {name} && name !in files)
    {
      if Effective(f.file) { files := files - {name}; }
      if f.file != Done { return false; }
      if Effective(f.secret) { secrets := secrets - {name}; }
      ok := f.secret == Done;
    }
  }
}
