/** `ociboot-init mount`: parsing the boot spec, mounting the image, assembling the writable view, and the cleanup. */
module BootMount {
  import opened Seqs
  import opened MountTable

  // ----- the kernel command line -----

  datatype BootSpec = BootSpec(image: string, verity: Option<string>)

  datatype SpecError = NoImage | EmptyImage | NotAPlainName | BadVerity

  datatype Parsed = Accepted(spec: BootSpec) | Rejected(error: SpecError)

  predicate PlainName(name: string) {
    name != "" && '/' !in name && name != "." && name != ".."
  }

  function Lower(c: char): char {
    if 'A' <= c <= 'Z' then c - 'A' + 'a' else c
  }

  function Lowercase(s: string): (r: string)
    ensures |r| == |s| && forall i :: 0 <= i < |s| ==> r[i] == Lower(s[i])
  {
    if s == "" then "" else [Lower(s[0])] + Lowercase(s[1..])
  }

  predicate IsHex64(s: string) {
    |s| == 64 && forall i :: 0 <= i < |s| ==> '0' <= s[i] <= '9' || 'a' <= s[i] <= 'f' || 'A' <= s[i] <= 'F'
  }

  /** `image` and `verity` are the two parameters as found on the command line: absent, bare, or with a value. */
  function ParseBootSpec(image: Option<Option<string>>, verity: Option<Option<string>>): Parsed {
    if image.None? || image.value.None? then Rejected(NoImage) else
    var name := image.value.value;
    if name == "" then Rejected(EmptyImage)
    else if '/' in name || name == "." || name == ".." then Rejected(NotAPlainName)
    else match verity
         case None => Accepted(BootSpec(name, None))
         case Some(value) =>
           var digest := Lowercase(value.GetOr(""));
           if !IsHex64(digest) then Rejected(BadVerity) else Accepted(BootSpec(name, Some(digest)))
  }

  /**
    * What is accepted is a plain file name and, if a digest was asked for, 64 lowercase hexadecimal digits;
    * nothing else.
    */
  lemma {:induction false} SpecAccepted(image: Option<Option<string>>, verity: Option<Option<string>>)
    ensures
      var r := ParseBootSpec(image, verity);
      && (r.Accepted? <==> && image.Some? && image.value.Some? && PlainName(image.value.value)
                           && (verity.Some? ==> verity.value.Some? && IsHex64(verity.value.value)))
      && (r.Accepted? ==> r.spec.image == image.value.value && (r.spec.verity.None? <==> verity.None?))
  {
    if verity.Some? {
      LowercaseHex(verity.value.GetOr(""));
    }
  }

  /** The accepted digest is the given one, 64 digits long, with `A` to `F` written as `a` to `f`. */
  lemma {:induction false} DigestGiven(image: Option<Option<string>>, verity: Option<Option<string>>)
    requires ParseBootSpec(image, verity).Accepted? && verity.Some?
    ensures verity.value.Some? && ParseBootSpec(image, verity).spec.verity.Some?
    ensures
      var given, digest := verity.value.value, ParseBootSpec(image, verity).spec.verity.value;
      && |given| == |digest| == 64
      && forall i :: 0 <= i < 64 ==>
           || ('0' <= given[i] <= '9' && digest[i] == given[i])
           || ('a' <= given[i] <= 'f' && digest[i] == given[i])
           || ('A' <= given[i] <= 'F' && digest[i] == given[i] - 'A' + 'a')
  {
    SpecAccepted(image, verity);
  }

  /** Asking for a digest is accepted for 64 hexadecimal digits of either case, and only for those. */
  lemma {:induction false} DigestAccepted(name: string, verity: string)
    requires PlainName(name)
    ensures ParseBootSpec(Some(Some(name)), Some(Some(verity))).Accepted?
       <==> |verity| == 64 && forall i :: 0 <= i < 64 ==> verity[i] in "0123456789abcdefABCDEF"
  {
    SpecAccepted(Some(Some(name)), Some(Some(verity)));
    forall i | 0 <= i < |verity|
      ensures verity[i] in "0123456789abcdefABCDEF"
         <==> '0' <= verity[i] <= '9' || 'a' <= verity[i] <= 'f' || 'A' <= verity[i] <= 'F'
    {
      HexLetters(verity[i]);
    }
  }

  lemma {:induction false} HexLetters(c: char)
    ensures c in "0123456789abcdefABCDEF" <==> '0' <= c <= '9' || 'a' <= c <= 'f' || 'A' <= c <= 'F'
  {
    var all := "0123456789abcdefABCDEF";
    if '0' <= c <= '9' {
      assert all[c as int - 48] == c;
    } else if 'a' <= c <= 'f' {
      assert all[c as int - 87] == c;
    } else if 'A' <= c <= 'F' {
      assert all[c as int - 49] == c;
    }
  }

  lemma {:induction false} LowercaseHex(s: string)
    ensures IsHex64(Lowercase(s)) <==> IsHex64(s)
    ensures Lowercase(Lowercase(s)) == Lowercase(s)
  {
  }

  // ----- the machine and what may go wrong -----

  /** The mount table, the attached loop devices, and how many times an image has been attached. */
  datatype Machine = Machine(table: Table, loops: set<Device>, attached: nat)

  /** Everything that can fail on its own account. */
  datatype Step =
    | BadSpec | ImageMissing | Verity | CreateTarget | Attach | MountImage
    | CheckEtc | CheckVar | CheckRun | CheckTmp
    | CreateUpper | CreateWork | CreateVar
    | LowerSyntax | UpperSyntax | WorkSyntax
    | MountEtc | BindVar | MountRun | MountTmp
    | DetachOnce | Detach(attempt: nat) | Settle(attempt: nat)

  type Faults = Step -> bool

  const PREPARATION: seq<Step> :=
    [CheckEtc, CheckVar, CheckRun, CheckTmp, CreateUpper, CreateWork, CreateVar, LowerSyntax, UpperSyntax, WorkSyntax]

  function FirstFault(steps: seq<Step>, fails: Faults): Option<Step> {
    if steps == [] then None else if fails(steps[0]) then Some(steps[0]) else FirstFault(steps[1..], fails)
  }

  /** The image's own `/etc` below, what changes and the overlay's scratch space in the state directory. */
  function Etc(target: Path, state: Path): Mount {
    Mount(target + ["etc"], Overlay(target + ["etc"], state + ["etc", "upper"], state + ["etc", "work"]))
  }

  function Var(target: Path, state: Path): Mount {
    Mount(target + ["var"], Bind(state + ["var"]))
  }

  function Run(target: Path): Mount {
    Mount(target + ["run"], Tmpfs)
  }

  function Tmp(target: Path): Mount {
    Mount(target + ["tmp"], Tmpfs)
  }

  /** What the recursive bind of the state directory's `var` brings along: a copy of every mount beneath its source. */
  function Submounts(t: Table, target: Path, state: Path): (r: Table)
    ensures AllUnder(target + ["var"], r)
  {
    Moved(Beneath(t, state + ["var"]), state + ["var"], target + ["var"])
  }

  // ----- assembling the writable view -----

  /** The table after the assembly, and the step it stopped at if it did. */
  function Assemble(t: Table, target: Path, state: Path, fails: Faults): (Table, Option<Step>) {
    var fault := FirstFault(PREPARATION, fails);
    if fault.Some? then (t, fault) else MountView(t, target, state, Submounts(t + [Etc(target, state)], target, state), fails)
  }

  function MountView(t: Table, target: Path, state: Path, copies: Table, fails: Faults): (Table, Option<Step>) {
    if fails(MountEtc) then (t, Some(MountEtc)) else
    var t1 := t + [Etc(target, state)];
    if fails(BindVar) then (t1, Some(BindVar)) else
    var t2 := t1 + ([Var(target, state)] + copies);
    if fails(MountRun) then (t2, Some(MountRun)) else
    var t3 := t2 + [Run(target)];
    if fails(MountTmp) then (t3, Some(MountTmp)) else (t3 + [Tmp(target)], None)
  }

  function UnmountView(t: Table, target: Path): Table {
    Unmount(Unmount(Unmount(Unmount(t, target + ["tmp"]), target + ["run"]), target + ["var"]), target + ["etc"])
  }

  function UnmountTarget(t: Table, target: Path): Table {
    Unmount(UnmountView(t, target), target)
  }

  /** No mount uses the device. */
  predicate Unused(t: Table, device: Device) {
    forall m :: m in t ==> m.source != Loop(device)
  }

  // ----- the command -----

  /**
    * The two kernel parameters, the image file and its measured digest (measuring can fail, an image can be unsealed),
    * the places to mount at, the loop device that is free, and how often a detach is retried before the deadline.
    */
  datatype Request = Request(
    image: Option<Option<string>>, verity: Option<Option<string>>, imageExists: bool, measured: Option<Option<string>>,
    target: Path, state: Option<Path>, device: Device, retries: nat)

  predicate SpecOk(r: Request) {
    ParseBootSpec(r.image, r.verity).Accepted?
  }

  /** No digest was asked for, or the measured one is it, whatever the case of its digits on the command line. */
  predicate VerityOk(r: Request) {
    r.verity.None? || r.measured == Some(Some(Lowercase(r.verity.value.GetOr(""))))
  }

  /** Some detach is accepted and takes effect before the deadline. */
  predicate DetachedInTime(fails: Faults, retries: nat) {
    exists k: nat :: k <= retries && !fails(Detach(k)) && !fails(Settle(k))
  }

  function MountImageFile(m: Machine, r: Request, fails: Faults): (Machine, Option<Step>) {
    if fails(CreateTarget) then (m, Some(CreateTarget))
    else if fails(Attach) then (m, Some(Attach)) else
    var m1 := m.(loops := m.loops + {r.device}, attached := m.attached + 1);
    if fails(MountImage) then (if fails(DetachOnce) then m1 else m1.(loops := m1.loops - {r.device}), Some(MountImage))
    else (m1.(table := m.table + [Mount(r.target, Loop(r.device))]), None)
  }

  /** A device that is still mounted is not released, however often it is detached. */
  function Teardown(m: Machine, r: Request, fails: Faults): Machine {
    var down := UnmountTarget(m.table, r.target);
    var released := Unused(down, r.device) && DetachedInTime(fails, r.retries);
    m.(table := down, loops := if released then m.loops - {r.device} else m.loops)
  }

  function Command(m: Machine, r: Request, fails: Faults): (Machine, Option<Step>) {
    if !SpecOk(r) then (m, Some(BadSpec))
    else if !r.imageExists then (m, Some(ImageMissing))
    else if !VerityOk(r) then (m, Some(Verity)) else
    var (m1, fault) := MountImageFile(m, r, fails);
    if fault.Some? || r.state.None? then (m1, fault) else
    var (view, stopped) := Assemble(m1.table, r.target, r.state.value, fails);
    if stopped.None? then (m1.(table := view), None) else (Teardown(m1.(table := view), r, fails), stopped)
  }

  // ----- taking the view down again -----

  /** The parts of the view are neither at nor above nor beneath one another. */
  lemma {:induction false} Separate(target: Path, a: string, b: string, more: Path)
    requires a != b
    ensures !(target + [a] <= target + [b] + more) && !(target + [b] + more <= target + [a])
  {
    var n := |target|;
    assert (target + [a])[n] == a && (target + [b] + more)[n] == b;
  }

  lemma {:induction false} Names()
    ensures "etc" != "var" && "etc" != "run" && "etc" != "tmp" && "var" != "run" && "var" != "tmp" && "run" != "tmp"
  {
  }

  /** Where the assembly can stop, beneath the image's own mount: nothing, `etc`, or more. */
  function ViewUpTo(fault: Step, target: Path, state: Path, copies: Table): Table {
    if fault == BindVar then [Etc(target, state)]
    else if fault == MountRun then [Etc(target, state), Var(target, state)] + copies
    else if fault == MountTmp then [Etc(target, state), Var(target, state)] + copies + [Run(target)]
    else []
  }

  lemma {:induction false} OutsideCopies(target: Path, name: string, copies: Table)
    requires AllUnder(target + ["var"], copies) && name != "var"
    ensures forall m :: m in copies ==> !(m.point <= target + [name]) && !(target + [name] <= m.point)
  {
    forall m | m in copies
      ensures !(m.point <= target + [name]) && !(target + [name] <= m.point)
    {
      var more := m.point[|target| + 1..];
      assert m.point == target + ["var"] + more;
      Separate(target, name, "var", more);
    }
  }

  lemma {:induction false} OtherName(target: Path, a: string, b: string)
    requires a != b
    ensures !(target + [a] <= target + [b])
  {
    Separate(target, a, b, []);
    assert target + [b] + [] == target + [b];
  }

  /** With nothing beneath the state directory's `var`, every unmount finds its mount on top. */
  lemma {:induction false} ViewComesDown(fault: Step, target: Path, state: Path)
    ensures UnmountView(ViewUpTo(fault, target, state, []), target) == []
  {
    Names();
    var view := ViewUpTo(fault, target, state, []);
    OtherName(target, "etc", "tmp");
    OtherName(target, "var", "tmp");
    OtherName(target, "run", "tmp");
    UnmountNothing(view, target + ["tmp"]);
    var short := if fault == MountTmp then [Etc(target, state), Var(target, state)] else view;
    if fault == MountTmp {
      assert view == short + [Run(target)];
      UnmountLast(short, Run(target));
    } else {
      OtherName(target, "etc", "run");
      OtherName(target, "var", "run");
      UnmountNothing(short, target + ["run"]);
    }
    VarAndEtcComeDown(short, target, state);
  }

  lemma {:induction false} VarAndEtcComeDown(view: Table, target: Path, state: Path)
    requires view == [] || view == [Etc(target, state)] || view == [Etc(target, state), Var(target, state)]
    ensures Unmount(Unmount(view, target + ["var"]), target + ["etc"]) == []
  {
    Names();
    OtherName(target, "etc", "var");
    if |view| == 2 {
      assert view == [Etc(target, state)] + [Var(target, state)];
      UnmountLast([Etc(target, state)], Var(target, state));
    } else {
      UnmountNothing(view, target + ["var"]);
    }
    if |view| == 0 {
      UnmountNothing([], target + ["etc"]);
    } else {
      assert [Etc(target, state)] == [] + [Etc(target, state)];
      UnmountLast([], Etc(target, state));
    }
  }

  /** With copied mounts beneath it, `var` is busy and stays, and so do the copies. */
  lemma {:induction false} CopiesStay(fault: Step, target: Path, state: Path, copies: Table)
    requires (fault == MountRun || fault == MountTmp) && copies != [] && AllUnder(target + ["var"], copies)
    ensures UnmountView(ViewUpTo(fault, target, state, copies), target) == [Var(target, state)] + copies
  {
    Names();
    var two := [Etc(target, state), Var(target, state)] + copies;
    var view := ViewUpTo(fault, target, state, copies);
    OtherName(target, "etc", "tmp");
    OtherName(target, "var", "tmp");
    OtherName(target, "run", "tmp");
    OutsideCopies(target, "tmp", copies);
    UnmountNothing(view, target + ["tmp"]);
    if fault == MountTmp {
      UnmountLast(two, Run(target));
    } else {
      OtherName(target, "etc", "run");
      OtherName(target, "var", "run");
      OutsideCopies(target, "run", copies);
      UnmountNothing(two, target + ["run"]);
    }
    BusyVarStays(target, state, copies);
  }

  lemma {:induction false} BusyVarStays(target: Path, state: Path, copies: Table)
    requires copies != [] && AllUnder(target + ["var"], copies)
    ensures
      var two := [Etc(target, state), Var(target, state)] + copies;
      Unmount(Unmount(two, target + ["var"]), target + ["etc"]) == [Var(target, state)] + copies
  {
    var etc, bound := Etc(target, state), Var(target, state);
    assert [etc, bound] + copies == [etc] + [bound] + copies;
    UnmountBase([etc], bound, copies);
    ConcatAssoc([etc], [bound], copies);
    EtcApart(target, state, copies);
    UnmountFirst(etc, [bound] + copies);
  }

  lemma {:induction false} EtcApart(target: Path, state: Path, copies: Table)
    requires AllUnder(target + ["var"], copies)
    ensures forall m :: m in [Var(target, state)] + copies ==>
              !(m.point <= target + ["etc"]) && !(target + ["etc"] <= m.point)
  {
    Names();
    OtherName(target, "etc", "var");
    OtherName(target, "var", "etc");
    OutsideCopies(target, "etc", copies);
  }

  lemma {:induction false} UnmountKeepsUnder(root: Path, t: Table, p: Path)
    requires AllUnder(root, t)
    ensures AllUnder(root, Unmount(t, p))
  {
  }

  /** Taking down the view touches only what is beneath the target; the target itself goes if nothing is left there. */
  lemma {:induction false} TargetComesDown(base: Table, image: Mount, rest: Table)
    requires AllUnder(image.point, rest)
    ensures
      var left := UnmountView(rest, image.point);
      UnmountTarget(base + [image] + rest, image.point) == if left == [] then base else base + [image] + left
  {
    var target := image.point;
    var r1 := Unmount(rest, target + ["tmp"]);
    var r2 := Unmount(r1, target + ["run"]);
    var r3 := Unmount(r2, target + ["var"]);
    var r4 := Unmount(r3, target + ["etc"]);
    UnmountAbove(base, image, rest, target + ["tmp"]);
    UnmountKeepsUnder(target, rest, target + ["tmp"]);
    UnmountAbove(base, image, r1, target + ["run"]);
    UnmountKeepsUnder(target, r1, target + ["run"]);
    UnmountAbove(base, image, r2, target + ["var"]);
    UnmountKeepsUnder(target, r2, target + ["var"]);
    UnmountAbove(base, image, r3, target + ["etc"]);
    UnmountKeepsUnder(target, r3, target + ["etc"]);
    UnmountBase(base, image, r4);
  }

  // ----- when a failed boot attempt leaves nothing behind -----

  /** The mounts that a recursive bind of the state directory's `var` brings along. */
  function Copies(m: Machine, r: Request): Table
    requires r.state.Some?
  {
    Submounts(m.table + [Mount(r.target, Loop(r.device))] + [Etc(r.target, r.state.value)], r.target, r.state.value)
  }

  lemma {:induction false} AssembleStops(t: Table, target: Path, state: Path, fails: Faults)
    ensures
      var copies := Submounts(t + [Etc(target, state)], target, state);
      var (view, fault) := Assemble(t, target, state, fails);
      fault.Some? ==> view == t + ViewUpTo(fault.value, target, state, copies)
  {
    PreparationFaults(fails);
    MountViewStops(t, target, state, Submounts(t + [Etc(target, state)], target, state), fails);
    assert t + [] == t;
  }

  lemma {:induction false} MountViewStops(t: Table, target: Path, state: Path, copies: Table, fails: Faults)
    ensures
      var (view, fault) := MountView(t, target, state, copies, fails);
      fault.Some? ==> view == t + ViewUpTo(fault.value, target, state, copies)
  {
  }

  lemma {:induction false} PreparationFaults(fails: Faults)
    ensures
      var fault := FirstFault(PREPARATION, fails);
      fault.Some? ==> fault.value !in {BindVar, MountRun, MountTmp, MountImage}
  {
    FaultIsOne(PREPARATION, fails);
  }

  lemma {:induction false} FaultIsOne(steps: seq<Step>, fails: Faults)
    ensures FirstFault(steps, fails).Some? ==> FirstFault(steps, fails).value in steps
  {
    if steps == [] {
    } else {
      FaultIsOne(steps[1..], fails);
    }
  }

  lemma {:induction false} ViewUnder(fault: Step, target: Path, state: Path, copies: Table)
    requires AllUnder(target + ["var"], copies)
    ensures AllUnder(target, ViewUpTo(fault, target, state, copies))
  {
  }

  /** What is left of the view after a failed assembly: nothing, unless the bind of `var` had brought mounts along. */
  lemma {:induction false} LeftOver(fault: Step, target: Path, state: Path, copies: Table)
    requires AllUnder(target + ["var"], copies)
    ensures
      var left := UnmountView(ViewUpTo(fault, target, state, copies), target);
      left == if (fault == MountRun || fault == MountTmp) && copies != [] then [Var(target, state)] + copies else []
  {
    if (fault == MountRun || fault == MountTmp) && copies != [] {
      CopiesStay(fault, target, state, copies);
    } else {
      ViewComesDown(fault, target, state);
      assert copies == [] || ViewUpTo(fault, target, state, copies) == ViewUpTo(fault, target, state, []);
    }
  }

  const VIEW: seq<Step> := PREPARATION + [MountEtc, BindVar, MountRun, MountTmp]

  /** The step at which the assembly of the view stops. */
  function ViewFault(fails: Faults): Option<Step> {
    FirstFault(VIEW, fails)
  }

  lemma {:induction false} FirstFaultConcat(a: seq<Step>, b: seq<Step>, fails: Faults)
    ensures FirstFault(a + b, fails) == if FirstFault(a, fails).Some? then FirstFault(a, fails) else FirstFault(b, fails)
  {
    if a == [] {
      assert a + b == b;
    } else {
      assert (a + b)[1..] == a[1..] + b;
      FirstFaultConcat(a[1..], b, fails);
    }
  }

  lemma {:induction false} AssembleFault(t: Table, target: Path, state: Path, fails: Faults)
    ensures Assemble(t, target, state, fails).1 == ViewFault(fails)
  {
    var mounts := [MountEtc, BindVar, MountRun, MountTmp];
    FirstFaultConcat(PREPARATION, mounts, fails);
    assert mounts[1..] == [BindVar, MountRun, MountTmp];
    assert mounts[1..][1..] == [MountRun, MountTmp];
    assert mounts[1..][1..][1..] == [MountTmp];
    assert FirstFault([MountTmp][1..], fails) == None;
  }

  /**
    * The image gets attached: the command line is sound, the image exists, passes its verity check, and nothing
    * fails before that.
    */
  predicate Reaches(r: Request, fails: Faults) {
    SpecOk(r) && r.imageExists && VerityOk(r) && !fails(CreateTarget) && !fails(Attach)
  }

  /** The attempt succeeds. */
  predicate Succeeds(r: Request, fails: Faults) {
    Reaches(r, fails) && !fails(MountImage) && (r.state.Some? ==> ViewFault(fails).None?)
  }

  /**
    * What makes a failed attempt leave something behind: the one detach after a failed image mount does not take
    * effect, the retried detach of the teardown never does, or the view stops after a bind that brought mounts along.
    */
  predicate Leaks(m: Machine, r: Request, fails: Faults) {
    Reaches(r, fails) && !Succeeds(r, fails)
    && (if fails(MountImage) then fails(DetachOnce)
        else !DetachedInTime(fails, r.retries) || (ViewFault(fails).value in {MountRun, MountTmp} && Copies(m, r) != []))
  }

  /** The loop device is fresh: not attached and not in use. */
  predicate Fresh(m: Machine, device: Device) {
    device !in m.loops && Unused(m.table, device)
  }

  lemma {:induction false} TeardownAfterFault(m: Machine, r: Request, fails: Faults)
    requires r.state.Some? && ViewFault(fails).Some?
    ensures
      var t := m.table + [Mount(r.target, Loop(r.device))];
      var down := UnmountTarget(Assemble(t, r.target, r.state.value, fails).0, r.target);
      if ViewFault(fails).value in {MountRun, MountTmp} && Copies(m, r) != []
      then down != m.table && !Unused(down, r.device)
      else down == m.table
  {
    var image := Mount(r.target, Loop(r.device));
    var fault := ViewFault(fails).value;
    var state := r.state.value;
    AssembleFault(m.table + [image], r.target, state, fails);
    AssembleStops(m.table + [image], r.target, state, fails);
    ViewUnder(fault, r.target, state, Copies(m, r));
    TargetComesDown(m.table, image, ViewUpTo(fault, r.target, state, Copies(m, r)));
    LeftOver(fault, r.target, state, Copies(m, r));
    if fault in {MountRun, MountTmp} && Copies(m, r) != [] {
      var down := m.table + [image] + ([Var(r.target, state)] + Copies(m, r));
      assert down[|m.table|] == image && image in down;
    }
  }

  lemma {:induction false} CommandSucceeds(m: Machine, r: Request, fails: Faults)
    ensures Command(m, r, fails).1.None? <==> Succeeds(r, fails)
  {
    if r.state.Some? {
      AssembleFault(m.table + [Mount(r.target, Loop(r.device))], r.target, r.state.value, fails);
    }
  }

  /**
    * Whichever step fails, the mount table and the loop devices are afterwards as they were before, exactly when the
    * attempt does not leak.
    */
  lemma {:induction false} FailureRestores(m: Machine, r: Request, fails: Faults)
    requires Fresh(m, r.device)
    ensures Command(m, r, fails).1.Some? ==>
              (Command(m, r, fails).0.table == m.table && Command(m, r, fails).0.loops == m.loops <==> !Leaks(m, r, fails))
  {
    if Reaches(r, fails) {
      assert m.loops + {r.device} - {r.device} == m.loops;
      if !fails(MountImage) && r.state.Some? {
        AssembleFault(m.table + [Mount(r.target, Loop(r.device))], r.target, r.state.value, fails);
        if ViewFault(fails).Some? {
          TeardownAfterFault(m, r, fails);
        }
      }
    }
  }

  /** No image is attached unless the command line is sound, and no digest was asked for or the measured one is it. */
  lemma {:induction false} AttachedOnlyVerified(m: Machine, r: Request, fails: Faults)
    ensures Command(m, r, fails).0.attached > m.attached ==>
              && r.image.Some? && r.image.value.Some? && PlainName(r.image.value.value)
              && (r.verity.None? || (r.verity.value.Some? && r.measured == Some(Some(Lowercase(r.verity.value.value)))))
    ensures Command(m, r, fails).0.attached == m.attached <==> !Reaches(r, fails)
    ensures !Reaches(r, fails) ==> Command(m, r, fails).0 == m
  {
  }

  /**
    * A failed attempt that leaves mounts and the loop device behind, though every unmount and detach works when
    * it can.
    */
  lemma {:induction false} SubmountLeaks(m: Machine, r: Request)
    requires SpecOk(r) && r.imageExists && VerityOk(r) && Fresh(m, r.device)
    requires r.state == Some(["state"]) && r.target == ["root"]
    requires m.table == [Mount(["state", "var", "log"], Tmpfs)]
    ensures
      var (after, fault) := Command(m, r, (step: Step) => step == MountTmp);
      fault.Some? && !(after.table == m.table && after.loops == m.loops)
  {
    var fails := (step: Step) => step == MountTmp;
    OnlyTmpFails(fails);
    LogBeneath(m, r);
    CommandSucceeds(m, r, fails);
    FailureRestores(m, r, fails);
  }

  lemma {:induction false} OnlyTmpFails(fails: Faults)
    requires forall step :: fails(step) <==> step == MountTmp
    ensures ViewFault(fails) == Some(MountTmp)
  {
    OnlyOne(VIEW, MountTmp, fails);
  }

  lemma {:induction false} OnlyOne(steps: seq<Step>, bad: Step, fails: Faults)
    requires forall step :: fails(step) <==> step == bad
    ensures FirstFault(steps, fails) == if bad in steps then Some(bad) else None
  {
    if steps == [] {
    } else {
      OnlyOne(steps[1..], bad, fails);
    }
  }

  lemma {:induction false} LogBeneath(m: Machine, r: Request)
    requires r.state == Some(["state"]) && r.target == ["root"] && m.table == [Mount(["state", "var", "log"], Tmpfs)]
    ensures Copies(m, r) != []
  {
    var source, log, image := r.state.value + ["var"], m.table[0], Mount(r.target, Loop(r.device));
    assert source == ["state", "var"];
    assert source < log.point;
    assert "root"[0] != "state"[0];
    assert image.point[0] != source[0] && Etc(r.target, r.state.value).point[0] != source[0];
    BeneathNext(m.table + [image], Etc(r.target, r.state.value), source);
    BeneathNext(m.table, image, source);
    BeneathNext([], log, source);
    assert [] + [log] == m.table;
  }
}
