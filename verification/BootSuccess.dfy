/** What `ociboot-init mount` has done when it succeeds, and which step it names when it fails. */
module BootSuccess {
  import opened Seqs
  import opened MountTable
  import opened BootMount

  // ----- the mounts of a successful attempt -----

  lemma {:induction false} AssembledView(t: Table, target: Path, state: Path, fails: Faults)
    requires Assemble(t, target, state, fails).1.None?
    ensures Assemble(t, target, state, fails).0
         == t + [Etc(target, state)] + [Var(target, state)]
            + (Submounts(t + [Etc(target, state)], target, state) + [Run(target)] + [Tmp(target)])
  {
    var copies := Submounts(t + [Etc(target, state)], target, state);
    var t1 := t + [Etc(target, state)];
    ConcatAssoc(t1, [Var(target, state)], copies);
    ConcatAssoc(t1 + [Var(target, state)], copies, [Run(target)]);
    ConcatAssoc(t1 + [Var(target, state)], copies + [Run(target)], [Tmp(target)]);
  }

  lemma {:induction false} NotAbove(target: Path, a: string, b: string)
    requires a != b
    ensures !(target + [a] <= target + [b])
  {
    OtherName(target, a, b);
  }

  lemma {:induction false} RunAndTmpElsewhere(target: Path, name: string, copies: Table)
    requires name != "run" && name != "tmp" && AllUnder(target + ["var"], copies) && (name == "var" || name == "etc")
    ensures forall m :: m in copies + [Run(target)] + [Tmp(target)] ==> !(m.point <= target + [name])
  {
    NotAbove(target, "run", name);
    NotAbove(target, "tmp", name);
    if name == "etc" {
      Names();
      OutsideCopies(target, "etc", copies);
    }
  }

  /** A lookup at each of the four directories ends on what belongs there. */
  lemma {:induction false} ViewShows(t: Table, target: Path, state: Path, fails: Faults)
    requires Assemble(t, target, state, fails).1.None?
    ensures
      var view := Assemble(t, target, state, fails).0;
      && Shows(view, target + ["etc"], Overlay(target + ["etc"], state + ["etc", "upper"], state + ["etc", "work"]))
      && Shows(view, target + ["var"], Bind(state + ["var"]))
      && Shows(view, target + ["run"], Tmpfs)
      && Shows(view, target + ["tmp"], Tmpfs)
  {
    Names();
    AssembledView(t, target, state, fails);
    EtcAndVarShow(t, target, state, Submounts(t + [Etc(target, state)], target, state));
    RunAndTmpShow(t + [Etc(target, state)] + [Var(target, state)], target,
                  Submounts(t + [Etc(target, state)], target, state));
  }

  lemma {:induction false} EtcAndVarShow(t: Table, target: Path, state: Path, copies: Table)
    requires AllUnder(target + ["var"], copies)
    ensures
      var view := t + [Etc(target, state)] + [Var(target, state)] + (copies + [Run(target)] + [Tmp(target)]);
      && Shows(view, target + ["etc"], Overlay(target + ["etc"], state + ["etc", "upper"], state + ["etc", "work"]))
      && Shows(view, target + ["var"], Bind(state + ["var"]))
  {
    Names();
    var etc, bound := Etc(target, state), Var(target, state);
    var rest := copies + [Run(target)] + [Tmp(target)];
    ShowsLast(t, etc);
    NotAbove(target, "var", "etc");
    ShowsStill(t + [etc], [bound], etc.point, etc.source);
    RunAndTmpElsewhere(target, "etc", copies);
    ShowsStill(t + [etc] + [bound], rest, etc.point, etc.source);
    ShowsLast(t + [etc], bound);
    RunAndTmpElsewhere(target, "var", copies);
    ShowsStill(t + [etc] + [bound], rest, bound.point, bound.source);
  }

  lemma {:induction false} RunAndTmpShow(t: Table, target: Path, copies: Table)
    ensures
      var view := t + (copies + [Run(target)] + [Tmp(target)]);
      Shows(view, target + ["run"], Tmpfs) && Shows(view, target + ["tmp"], Tmpfs)
  {
    Names();
    ConcatAssoc(t, copies + [Run(target)], [Tmp(target)]);
    ConcatAssoc(t, copies, [Run(target)]);
    ShowsLast(t + copies, Run(target));
    NotAbove(target, "tmp", "run");
    ShowsStill(t + copies + [Run(target)], [Tmp(target)], target + ["run"], Tmpfs);
    ShowsLast(t + copies + [Run(target)], Tmp(target));
  }

  /**
    * An attempt that succeeds has attached the image once and mounted it; without a state directory nothing else, and
    * with one a lookup at `etc`, `var`, `run` and `tmp` of the target ends on the overlay, the bind and the tmpfs.
    */
  lemma {:induction false} SuccessMounts(m: Machine, r: Request, fails: Faults)
    requires Command(m, r, fails).1.None?
    ensures
      var after := Command(m, r, fails).0;
      && after.loops == m.loops + {r.device} && after.attached == m.attached + 1
      && (r.state.None? ==> after.table == m.table + [Mount(r.target, Loop(r.device))])
      && (r.state.Some? ==>
            var state := r.state.value;
            && Shows(after.table, r.target + ["etc"],
                     Overlay(r.target + ["etc"], state + ["etc", "upper"], state + ["etc", "work"]))
            && Shows(after.table, r.target + ["var"], Bind(state + ["var"]))
            && Shows(after.table, r.target + ["run"], Tmpfs)
            && Shows(after.table, r.target + ["tmp"], Tmpfs)
            && m.table + [Mount(r.target, Loop(r.device))] <= after.table)
  {
    if r.state.Some? {
      var t := m.table + [Mount(r.target, Loop(r.device))];
      CommandTable(m, r, fails);
      ViewShows(t, r.target, r.state.value, fails);
      ViewKeeps(t, r.target, r.state.value, fails);
    }
  }

  lemma {:induction false} ImageMounted(m: Machine, r: Request, fails: Faults)
    requires MountImageFile(m, r, fails).1.None?
    ensures MountImageFile(m, r, fails).0
         == Machine(m.table + [Mount(r.target, Loop(r.device))], m.loops + {r.device}, m.attached + 1)
    ensures !fails(CreateTarget) && !fails(Attach) && !fails(MountImage)
  {
  }

  /** What the command comes to once the image is mounted. */
  lemma {:induction false} AfterImage(m: Machine, r: Request, fails: Faults)
    requires SpecOk(r) && r.imageExists && VerityOk(r) && MountImageFile(m, r, fails).1.None? && r.state.Some?
    ensures
      var m1 := MountImageFile(m, r, fails).0;
      var (view, stopped) := Assemble(m1.table, r.target, r.state.value, fails);
      Command(m, r, fails)
      == if stopped.None? then (m1.(table := view), None) else (Teardown(m1.(table := view), r, fails), stopped)
  {
  }

  lemma {:induction false} CommandTable(m: Machine, r: Request, fails: Faults)
    requires Command(m, r, fails).1.None? && r.state.Some?
    ensures
      var (view, fault) := Assemble(m.table + [Mount(r.target, Loop(r.device))], r.target, r.state.value, fails);
      && fault.None?
      && Command(m, r, fails).0 == Machine(view, m.loops + {r.device}, m.attached + 1)
  {
    ImageMounted(m, r, fails);
    AfterImage(m, r, fails);
  }

  lemma {:induction false} ViewKeeps(t: Table, target: Path, state: Path, fails: Faults)
    requires Assemble(t, target, state, fails).1.None?
    ensures t <= Assemble(t, target, state, fails).0
  {
    AssembledView(t, target, state, fails);
    var etc, bound, copies := [Etc(target, state)], [Var(target, state)],
                              Submounts(t + [Etc(target, state)], target, state);
    ConcatAssoc(t, etc, bound);
    ConcatAssoc(t, etc + bound, copies + [Run(target)] + [Tmp(target)]);
  }

  // ----- what is left of one that fails -----

  /**
    * A failed attempt leaves table and loop devices as they were exactly if it failed before the image was attached, or
    * the one detach after a failed image mount took effect, or the teardown's detach did in time and the bind of `var`
    * had not brought mounts along.
    */
  lemma {:induction false} RestoredExactly(m: Machine, r: Request, fails: Faults)
    requires Fresh(m, r.device) && Command(m, r, fails).1.Some?
    ensures
      var (after, fault) := Command(m, r, fails);
      after.table == m.table && after.loops == m.loops
      <==> || fault.value in {BadSpec, ImageMissing, Verity, CreateTarget, Attach}
           || (fault.value == MountImage && !fails(DetachOnce))
           || (&& fault.value !in {BadSpec, ImageMissing, Verity, CreateTarget, Attach, MountImage}
               && (exists k: nat :: k <= r.retries && !fails(Detach(k)) && !fails(Settle(k)))
               && (fault.value in {MountRun, MountTmp} ==>
                     Beneath(m.table + [Mount(r.target, Loop(r.device))] + [Etc(r.target, r.state.value)],
                             r.state.value + ["var"]) == []))
  {
    FailureRestores(m, r, fails);
    CommandSucceeds(m, r, fails);
    StopsAtFirstFault(m, r, fails);
    if Reaches(r, fails) {
      WhereItStops(m, r, fails);
    }
  }

  lemma {:induction false} WhereItStops(m: Machine, r: Request, fails: Faults)
    requires Reaches(r, fails) && Command(m, r, fails).1.Some?
    ensures
      var fault := Command(m, r, fails).1.value;
      if fails(MountImage) then fault == MountImage
      else r.state.Some? && ViewFault(fails) == Some(fault)
           && fault !in {BadSpec, ImageMissing, Verity, CreateTarget, Attach, MountImage}
  {
    if !fails(MountImage) {
      ImageMounted(m, r, fails);
      if r.state.Some? {
        AfterImage(m, r, fails);
        AssembleFault(m.table + [Mount(r.target, Loop(r.device))], r.target, r.state.value, fails);
        ViewFaultOneOf(fails);
      }
    }
  }

  lemma {:induction false} ViewFaultOneOf(fails: Faults)
    ensures ViewFault(fails).Some? ==>
              ViewFault(fails).value !in {BadSpec, ImageMissing, Verity, CreateTarget, Attach, MountImage}
  {
    FaultIsOne(VIEW, fails);
  }

  // ----- the step it stops at -----

  /** The steps in the order in which they are taken. */
  function Order(r: Request): seq<Step> {
    [CreateTarget, Attach, MountImage]
    + if r.state.None? then [] else
      [CheckEtc, CheckVar, CheckRun, CheckTmp, CreateUpper, CreateWork, CreateVar, LowerSyntax, UpperSyntax, WorkSyntax]
      + [MountEtc, BindVar, MountRun, MountTmp]
  }

  lemma {:induction false} FirstFaultIs(steps: seq<Step>, fails: Faults)
    ensures FirstFault(steps, fails).None? <==> forall i :: 0 <= i < |steps| ==> !fails(steps[i])
    ensures FirstFault(steps, fails).Some? ==>
              exists i :: 0 <= i < |steps| && FirstFault(steps, fails) == Some(steps[i]) && fails(steps[i])
                          && forall j :: 0 <= j < i ==> !fails(steps[j])
  {
    if steps == [] {
    } else {
      FirstFaultIs(steps[1..], fails);
      if !fails(steps[0]) && FirstFault(steps, fails).Some? {
        var i :| 0 <= i < |steps[1..]| && FirstFault(steps, fails) == Some(steps[1..][i]) && fails(steps[1..][i])
                 && forall j :: 0 <= j < i ==> !fails(steps[1..][j]);
        assert steps[i + 1] == steps[1..][i];
        assert forall j :: 0 < j <= i ==> steps[j] == steps[1..][j - 1];
      }
    }
  }

  lemma {:induction false} CommandFault(m: Machine, r: Request, fails: Faults)
    requires SpecOk(r) && r.imageExists && VerityOk(r)
    ensures Command(m, r, fails).1 == FirstFault(Order(r), fails)
  {
    FirstThree(fails);
    OrderIs(r);
    if r.state.Some? {
      AssembleFault(m.table + [Mount(r.target, Loop(r.device))], r.target, r.state.value, fails);
      FirstFaultConcat([CreateTarget, Attach, MountImage], VIEW, fails);
    } else {
      FirstFaultConcat([CreateTarget, Attach, MountImage], [], fails);
    }
  }

  lemma {:induction false} OrderIs(r: Request)
    ensures Order(r) == [CreateTarget, Attach, MountImage] + if r.state.None? then [] else VIEW
  {
  }

  lemma {:induction false} FirstThree(fails: Faults)
    ensures FirstFault([CreateTarget, Attach, MountImage], fails)
         == if fails(CreateTarget) then Some(CreateTarget)
            else if fails(Attach) then Some(Attach)
            else if fails(MountImage) then Some(MountImage)
            else None
  {
    var first := [CreateTarget, Attach, MountImage];
    assert first[1..] == [Attach, MountImage] && first[1..][1..] == [MountImage] && first[1..][1..][1..] == [];
  }

  /** The command names the first step of `Order` that fails, after its three refusals; it succeeds if none does. */
  lemma {:induction false} StopsAtFirstFault(m: Machine, r: Request, fails: Faults)
    ensures
      var fault := Command(m, r, fails).1;
      if ParseBootSpec(r.image, r.verity).Rejected? then fault == Some(BadSpec)
      else if !r.imageExists then fault == Some(ImageMissing)
      else if !VerityOk(r) then fault == Some(Verity)
      else if fault.None? then forall i :: 0 <= i < |Order(r)| ==> !fails(Order(r)[i])
      else exists i :: 0 <= i < |Order(r)| && fault == Some(Order(r)[i]) && fails(Order(r)[i])
                       && forall j :: 0 <= j < i ==> !fails(Order(r)[j])
  {
    if SpecOk(r) && r.imageExists && VerityOk(r) {
      CommandFault(m, r, fails);
      FirstFaultIs(Order(r), fails);
    }
  }
}
