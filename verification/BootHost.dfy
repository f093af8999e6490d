/** The mount command as it changes the machine, step by step. */
module BootHost {
  import opened Seqs
  import opened MountTable
  import opened BootMount

  /** The checks and directories that come before the first mount: stops at the first that fails. */
  method Prepare(fails: Faults) returns (fault: Option<Step>)
    ensures fault == FirstFault(PREPARATION, fails)
  {
    var i := 0;
    while i < |PREPARATION|
      invariant 0 <= i <= |PREPARATION|
      invariant FirstFault(PREPARATION, fails) == FirstFault(PREPARATION[i..], fails)
    {
      if fails(PREPARATION[i]) {
        return Some(PREPARATION[i]);
      }
      i := i + 1;
    }
    return None;
  }

  class Host {
    var table: Table
    var loops: set<Device>
    var attached: nat

    ghost function State(): Machine
      reads this
    {
      Machine(table, loops, attached)
    }

    constructor (m: Machine)
      ensures State() == m
    {
      table, loops, attached := m.table, m.loops, m.attached;
    }

    /** Unmounting, as the teardown does it: an error is ignored. */
    method TryUnmount(p: Path)
      modifies this`table
      ensures table == Unmount(old(table), p)
    {
      var top := Top(table, p);
      if top.Some? {
        var i, above := top.value, false;
        var j := i + 1;
        while j < |table| && !above
          invariant i < j <= |table| && table == old(table)
          invariant above <==> exists k :: i < k < j && table[i].point <= table[k].point
        {
          above := table[i].point <= table[j].point;
          j := j + 1;
        }
        if !above {
          table := table[..i] + table[i + 1..];
        }
      }
    }

    method MountErofsViaLoop(r: Request, fails: Faults) returns (fault: Option<Step>)
      modifies this
      ensures (State(), fault) == MountImageFile(old(State()), r, fails)
    {
      if fails(CreateTarget) {
        return Some(CreateTarget);
      }
      if fails(Attach) {
        return Some(Attach);
      }
      loops, attached := loops + {r.device}, attached + 1;
      if fails(MountImage) {
        if !fails(DetachOnce) {
          loops := loops - {r.device};
        }
        return Some(MountImage);
      }
      table := table + [Mount(r.target, Loop(r.device))];
      return None;
    }

    method AssembleWritableView(target: Path, state: Path, fails: Faults) returns (fault: Option<Step>)
      modifies this`table
      ensures (table, fault) == Assemble(old(table), target, state, fails)
    {
      fault := Prepare(fails);
      if fault.None? {
        fault := MountParts(target, state, fails);
      }
    }

    method MountParts(target: Path, state: Path, fails: Faults) returns (fault: Option<Step>)
      modifies this`table
      ensures (table, fault)
           == MountView(old(table), target, state, Submounts(old(table) + [Etc(target, state)], target, state), fails)
    {
      if fails(MountEtc) {
        return Some(MountEtc);
      }
      table := table + [Etc(target, state)];
      if fails(BindVar) {
        return Some(BindVar);
      }
      table := table + ([Var(target, state)] + Submounts(table, target, state));
      if fails(MountRun) {
        return Some(MountRun);
      }
      table := table + [Run(target)];
      if fails(MountTmp) {
        return Some(MountTmp);
      }
      table := table + [Tmp(target)];
      return None;
    }

    method TeardownTarget(r: Request, fails: Faults)
      modifies this`table, this`loops
      ensures State() == Teardown(old(State()), r, fails)
    {
      TryUnmount(r.target + ["tmp"]);
      TryUnmount(r.target + ["run"]);
      TryUnmount(r.target + ["var"]);
      TryUnmount(r.target + ["etc"]);
      TryUnmount(r.target);
      DetachRetrying(r.device, r.retries, fails);
    }

    /** A device that is still mounted is not released, however often it is tried. */
    method DetachRetrying(device: Device, retries: nat, fails: Faults)
      modifies this`loops
      ensures loops == if Unused(table, device) && DetachedInTime(fails, retries) then old(loops) - {device} else old(loops)
      ensures loops == old(loops)
              <==> (device !in old(loops) || (exists m :: m in table && m.source == Loop(device))
                    || forall k: nat :: k <= retries ==> fails(Detach(k)) || fails(Settle(k)))
    {
      var idle := Idle(device);
      var attempt := 0;
      while true
        invariant attempt <= retries && loops == old(loops)
        invariant idle ==> forall k: nat :: k < attempt ==> fails(Detach(k)) || fails(Settle(k))
        decreases retries - attempt
      {
        if idle && !fails(Detach(attempt)) && !fails(Settle(attempt)) {
          loops := loops - {device};
          return;
        }
        if attempt == retries {
          return;
        }
        attempt := attempt + 1;
      }
    }

    /** Whether the kernel can let go of the device. */
    method Idle(device: Device) returns (idle: bool)
      ensures idle <==> Unused(table, device)
    {
      idle := true;
      for i := 0 to |table|
        invariant idle <==> forall m :: m in table[..i] ==> m.source != Loop(device)
      {
        if table[i].source == Loop(device) {
          idle := false;
        }
      }
      assert table[..|table|] == table;
    }

    /** A failed attempt restores the machine exactly when it does not leak; a succeeding one has mounted the image. */
    method CmdMount(r: Request, fails: Faults) returns (fault: Option<Step>)
      modifies this
      ensures (State(), fault) == Command(old(State()), r, fails)
      ensures fault.None? <==> Succeeds(r, fails)
      ensures fault.Some? && Fresh(old(State()), r.device) ==>
                (table == old(table) && loops == old(loops) <==> !Leaks(old(State()), r, fails))
    {
      if Fresh(State(), r.device) {
        FailureRestores(State(), r, fails);
      }
      CommandSucceeds(State(), r, fails);
      if !SpecOk(r) {
        return Some(BadSpec);
      }
      if !r.imageExists {
        return Some(ImageMissing);
      }
      if !VerityOk(r) {
        return Some(Verity);
      }
      fault := MountErofsViaLoop(r, fails);
      if fault.Some? || r.state.None? {
        return;
      }
      fault := AssembleWritableView(r.target, r.state.value, fails);
      if fault.Some? {
        TeardownTarget(r, fails);
      }
    }
  }
}
