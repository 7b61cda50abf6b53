/** The durable replica state: what the state file says, and what startup makes of
it in either role. */
module ReplicaState {
  import opened Model

  datatype DurableState = Detached | Installing | Ready(replid: nat, baseline: nat)

  /** The state file: absent, not five fields of the known version, or the parsed
      fields. */
  datatype StateFile = Missing | Malformed | Fields(status: string, replid: nat, baseline: nat)

  datatype Result<T> = Ok(value: T) | Refused

  function Load(file: StateFile, watermark: nat): Result<Option<DurableState>> {
    match file
    case Missing => Ok(None)
    case Malformed => Refused
    case Fields(status, replid, baseline) =>
      if status == "DETACHED" && replid == 0 && baseline == 0 then Ok(Some(Detached))
      else if status == "INSTALLING" && replid == 0 && baseline == 0 then Ok(Some(Installing))
      else if status == "READY" && replid != 0 then
        if baseline != watermark then Ok(Some(Installing)) else Ok(Some(Ready(replid, baseline)))
      else Refused
  }

  function FileFor(state: DurableState): StateFile {
    match state
    case Detached => Fields("DETACHED", 0, 0)
    case Installing => Fields("INSTALLING", 0, 0)
    case Ready(replid, baseline) => Fields("READY", replid, baseline)
  }

  /** A written state loads back, except that an identity without a snapshot at its
      own baseline loads as an unfinished installation. */
  lemma LoadWritten(state: DurableState, watermark: nat)
    requires state.Ready? ==> state.replid != 0
    ensures Load(FileFor(state), watermark)
         == Ok(Some(if state.Ready? && state.baseline != watermark then Installing else state))
  {
  }

  /** Not what any state is written as. */
  predicate Damaged(file: StateFile) {
    || file.Malformed?
    || (&& file.Fields?
        && file != Fields("DETACHED", 0, 0) && file != Fields("INSTALLING", 0, 0)
        && (file.status != "READY" || file.replid == 0))
  }

  class ReplicaStateFile {
    var file: StateFile

    constructor (file: StateFile)
      ensures this.file == file
    {
      this.file := file;
    }

    /** Write to a temporary file, then rename: the old or the new state, never a
        mixture. `renamed` is false when a crash or an error comes first. */
    method Write(state: DurableState, renamed: bool)
      modifies this
      ensures file == if renamed then FileFor(state) else old(file)
    {
      var temp := FileFor(state);
      if renamed {
        file := temp;
      }
    }

    /** A replica is given an identity exactly by a READY file for the snapshot that
        is installed. A master is refused while an installation is unfinished, and
        otherwise leaves no file that a later start as a replica would take for an
        identity, whatever snapshot it finds then. */
    method PrepareReplicationStartup(watermark: nat, asReplica: bool) returns (r: Result<Option<DurableState>>)
      modifies this
      ensures asReplica ==> file == old(file)
      ensures asReplica ==>
        (r == Refused <==> Damaged(old(file)))
        && (forall id, b :: r == Ok(Some(Ready(id, b))) <==> old(file) == Fields("READY", id, b) && id != 0 && b == watermark)
      ensures !asReplica ==>
        (r == Refused <==>
           || Damaged(old(file)) || old(file) == Fields("INSTALLING", 0, 0)
           || (old(file).Fields? && old(file).status == "READY" && old(file).baseline != watermark))
        && (r != Refused ==> r == Ok(None) && file == if old(file).Missing? then Missing else Fields("DETACHED", 0, 0))
        && (r == Refused ==> file == old(file))
      ensures r.Ok? && r.value.Some? ==> r.value.value.Ready?
    {
      var state := Load(file, watermark);
      if state.Refused? {
        return Refused;
      }
      if asReplica {
        r := if state.value.Some? && state.value.value.Ready? then state else Ok(None);
        return;
      }
      if state.value == Some(Installing) {
        return Refused;
      }
      if state.value.Some? && state.value.value.Ready? {
        Write(Detached, true);
      }
      r := Ok(None);
    }
  }
}
