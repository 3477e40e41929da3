/** Content-addressed installation of the Slack provider: staged build, rename,
    symlink swap, with concurrent installers that may fail or crash anywhere. */
module SlackInstall {
  import opened Wrappers

  type Pid = nat
  type Gen = string            // the directory name, generation-<16 hex digits>
  type Digest = string
  type Files = map<string, string>

  /** A generation or staging directory: its payload files, whether pnpm has made
      node_modules, and the content digest in its manifest. */
  datatype Tree = Tree(files: Files, deps: bool, manifest: Option<Digest>)

  const EMPTY := Tree(map[], false, None)
  const LAUNCHER := "bin/vc-slack"
  const INDEX := "portal/dist/index.html"

  /** The rest of the required files, and the content digest, are parameters. */
  datatype Rules = Rules(required: set<string>, sha: Files -> Digest)

  datatype Pc =
    | Checking | Clearing | Making | Copying | Installing | Building | Writing | Deciding | Renaming
    | Linking | LinkReady | AtLauncher | PublicLinking | PublicReady | Finished
    | CleaningUp | Failed

  datatype Installer = Installer(gen: Gen, pc: Pc)

  /** A staging directory is named after the process and its generation. */
  datatype Disk = Disk(generations: map<Gen, Tree>, staging: map<(Pid, Gen), Tree>,
                       current: Option<Gen>, currentTmp: map<Pid, Gen>, publicLink: bool, publicTmp: set<Pid>)

  datatype State = State(disk: Disk, installers: map<Pid, Installer>)

  const START := State(Disk(map[], map[], None, map[], false, {}), map[])

  datatype Step =
    | Begin(gen: Gen) | Advance | Write(tree: Tree) | Fail | Crash | Exit

  predicate Staged(pc: Pc) { pc in {Copying, Installing, Building, Writing, Deciding, Renaming} }
  predicate Linked(pc: Pc) { pc in {Linking, LinkReady, AtLauncher, PublicLinking, PublicReady, Finished} }

  /** Copying writes anything; the tools that run later only add files. */
  predicate MayWrite(pc: Pc, before: Tree, after: Tree) {
    match pc
    case Copying => true
    case Installing => before.files.Keys <= after.files.Keys
    case Building => before.files.Keys <= after.files.Keys && (before.deps ==> after.deps)
    case _ => false
  }

  ghost predicate Enabled(s: State, pid: Pid, step: Step) {
    match step
    case Begin(_) => pid !in s.installers
    case Crash => pid in s.installers
    case Exit => pid in s.installers && s.installers[pid].pc in {Finished, Failed}
    case Fail => pid in s.installers && s.installers[pid].pc !in {Finished, Failed}
    case Write(tree) =>
      && pid in s.installers && (pid, s.installers[pid].gen) in s.disk.staging
      && MayWrite(s.installers[pid].pc, s.disk.staging[(pid, s.installers[pid].gen)], tree)
    case Advance =>
      && pid in s.installers && s.installers[pid].pc !in {Finished, Failed}
      && (Staged(s.installers[pid].pc) ==> (pid, s.installers[pid].gen) in s.disk.staging)
  }

  /** One operation of an installer on the disk, and where it goes next. */
  function Act(d: Disk, pid: Pid, i: Installer, rules: Rules): (Disk, Pc)
    requires i.pc !in {Finished, Failed}
    requires Staged(i.pc) ==> (pid, i.gen) in d.staging
  {
    var key := (pid, i.gen);
    match i.pc
    case Checking => (d, if i.gen in d.generations then Linking else Clearing)
    case Clearing => (d.(staging := d.staging - {key}), Making)
    case Making => (d.(staging := d.staging[key := EMPTY]), Copying)
    case Copying => (d, if rules.required <= d.staging[key].files.Keys && LAUNCHER in d.staging[key].files then Installing else CleaningUp)
    case Installing => (d, Building)
    case Building => (d, if INDEX in d.staging[key].files then Writing else CleaningUp)
    case Writing =>
      var tree := d.staging[key];
      (d.(staging := d.staging[key := tree.(manifest := Some(rules.sha(tree.files)))]), Deciding)
    case Deciding => if i.gen in d.generations then (d.(staging := d.staging - {key}), Linking) else (d, Renaming)
    case Renaming =>
      // a rename onto a directory that appeared meanwhile raises
      if i.gen in d.generations then (d, CleaningUp)
      else (d.(generations := d.generations[i.gen := d.staging[key]], staging := d.staging - {key}), Linking)
    case Linking => (d.(currentTmp := d.currentTmp[pid := i.gen]), LinkReady)
    case LinkReady => (d.(current := Some(i.gen), currentTmp := d.currentTmp - {pid}), AtLauncher)
    case AtLauncher =>
      var published := d.current.Some? && d.current.value in d.generations
                       && LAUNCHER in d.generations[d.current.value].files;
      (d, if published then PublicLinking else Failed)
    case PublicLinking => (d.(publicTmp := d.publicTmp + {pid}), PublicReady)
    case PublicReady => (d.(publicLink := true, publicTmp := d.publicTmp - {pid}), Finished)
    case CleaningUp => (d.(staging := d.staging - {key}), Failed)
  }

  /** An exception: staging is removed, a temporary link is unlinked. */
  function AfterFailure(d: Disk, pid: Pid, i: Installer): (Disk, Pc) {
    if Staged(i.pc) then (d, CleaningUp)
    else (d.(currentTmp := d.currentTmp - {pid}, publicTmp := d.publicTmp - {pid}), Failed)
  }

  ghost function Apply(s: State, pid: Pid, step: Step, rules: Rules): State
    requires Enabled(s, pid, step)
  {
    match step
    case Begin(gen) => s.(installers := s.installers[pid := Installer(gen, Checking)])
    case Crash => s.(installers := s.installers - {pid})
    case Exit => s.(installers := s.installers - {pid})
    case Write(tree) => s.(disk := s.disk.(staging := s.disk.staging[(pid, s.installers[pid].gen) := tree]))
    case Fail =>
      var i := s.installers[pid];
      var (d, pc) := AfterFailure(s.disk, pid, i);
      State(d, s.installers[pid := i.(pc := pc)])
    case Advance =>
      var i := s.installers[pid];
      var (d, pc) := Act(s.disk, pid, i, rules);
      State(d, s.installers[pid := i.(pc := pc)])
  }

  ghost predicate IsRun(states: seq<State>, steps: seq<(Pid, Step)>, rules: Rules) {
    && |states| == |steps| + 1 && states[0] == START
    && forall i :: 0 <= i < |steps| ==>
         Enabled(states[i], steps[i].0, steps[i].1) && states[i + 1] == Apply(states[i], steps[i].0, steps[i].1, rules)
  }

  // ---- what doctor accepts ----

  /** All that install itself checks or writes before it publishes a tree. */
  predicate Complete(t: Tree, rules: Rules) {
    && rules.required <= t.files.Keys && LAUNCHER in t.files && INDEX in t.files
    && t.manifest == Some(rules.sha(t.files))
  }

  /** The public link goes through current, so it resolves to its launcher. */
  predicate Doctor(d: Disk, rules: Rules) {
    && d.current.Some? && d.publicLink && d.current.value in d.generations
    && var t := d.generations[d.current.value];
       LAUNCHER in t.files && t.manifest.Some? && t.deps && t.manifest == Some(rules.sha(t.files))
  }

  // ---- the invariant ----

  ghost predicate GenerationsComplete(d: Disk, rules: Rules) {
    forall g :: g in d.generations ==> Complete(d.generations[g], rules)
  }

  predicate CurrentPublished(d: Disk) {
    (d.current.Some? ==> d.current.value in d.generations) && (d.publicLink ==> d.current.Some?)
  }

  predicate Progress(d: Disk, pid: Pid, i: Installer, rules: Rules) {
    && (Linked(i.pc) ==> i.gen in d.generations)
    && (i.pc in {AtLauncher, PublicLinking, PublicReady, Finished} ==> d.current.Some?)
    && (i.pc == Finished ==> d.publicLink)
    && (Staged(i.pc) ==> (pid, i.gen) in d.staging && BuiltSoFar(d.staging[(pid, i.gen)], i.pc, rules))
  }

  predicate BuiltSoFar(t: Tree, pc: Pc, rules: Rules) {
    && (pc in {Installing, Building, Writing} ==> rules.required <= t.files.Keys && LAUNCHER in t.files)
    && (pc == Writing ==> INDEX in t.files)
    && (pc in {Deciding, Renaming} ==> Complete(t, rules))
  }

  ghost predicate AllProgress(s: State, rules: Rules) {
    forall pid :: pid in s.installers ==> Progress(s.disk, pid, s.installers[pid], rules)
  }

  ghost predicate Invariant(s: State, rules: Rules) {
    GenerationsComplete(s.disk, rules) && CurrentPublished(s.disk) && AllProgress(s, rules)
  }

  /** Published generations are never changed or removed, and links only appear. */
  predicate Grows(d: Disk, e: Disk) {
    && d.generations.Keys <= e.generations.Keys
    && (forall g :: g in d.generations ==> e.generations[g] == d.generations[g])
    && (d.current.Some? ==> e.current.Some?) && (d.publicLink ==> e.publicLink)
  }

  /** An installer leaves the staging of all others alone. */
  ghost predicate OthersKept(d: Disk, e: Disk, pid: Pid) {
    forall key: (Pid, Gen) :: key.0 != pid ==>
      (key in d.staging <==> key in e.staging) && (key in d.staging ==> e.staging[key] == d.staging[key])
  }

  lemma ActGrows(d: Disk, pid: Pid, i: Installer, rules: Rules)
    requires i.pc !in {Finished, Failed} && (Staged(i.pc) ==> (pid, i.gen) in d.staging)
    ensures Grows(d, Act(d, pid, i, rules).0)
  {
    assert i.pc != Renaming ==> Act(d, pid, i, rules).0.generations == d.generations;
  }

  lemma ActLeavesOthers(d: Disk, pid: Pid, i: Installer, rules: Rules)
    requires i.pc !in {Finished, Failed} && (Staged(i.pc) ==> (pid, i.gen) in d.staging)
    ensures OthersKept(d, Act(d, pid, i, rules).0, pid)
  {
    var e := Act(d, pid, i, rules).0;
    assert i.pc !in {Clearing, Making, Writing, Deciding, Renaming, CleaningUp} ==> e.staging == d.staging;
    assert e.staging == d.staging || e.staging == d.staging - {(pid, i.gen)}
           || ((pid, i.gen) in e.staging && e.staging == d.staging[(pid, i.gen) := e.staging[(pid, i.gen)]]);
    hide Act;
  }

  /** Every step of the build keeps what the earlier ones achieved. */
  lemma BuildProgress(d: Disk, pid: Pid, i: Installer, rules: Rules)
    requires GenerationsComplete(d, rules) && CurrentPublished(d) && Progress(d, pid, i, rules)
    requires !Linked(i.pc) && i.pc != Failed
    ensures var (e, pc) := Act(d, pid, i, rules);
            GenerationsComplete(e, rules) && CurrentPublished(e) && Progress(e, pid, i.(pc := pc), rules)
  {
    if i.pc in {Writing, Deciding, Renaming} {
      LateProgress(d, pid, i, rules);
    }
  }

  /** From the manifest to the generation. */
  lemma LateProgress(d: Disk, pid: Pid, i: Installer, rules: Rules)
    requires GenerationsComplete(d, rules) && CurrentPublished(d) && Progress(d, pid, i, rules)
    requires i.pc in {Writing, Deciding, Renaming}
    ensures var (e, pc) := Act(d, pid, i, rules);
            GenerationsComplete(e, rules) && CurrentPublished(e) && Progress(e, pid, i.(pc := pc), rules)
  {
  }

  lemma LinkProgress(d: Disk, pid: Pid, i: Installer, rules: Rules)
    requires GenerationsComplete(d, rules) && CurrentPublished(d) && Progress(d, pid, i, rules)
    requires Linked(i.pc) && i.pc != Finished
    ensures var (e, pc) := Act(d, pid, i, rules);
            GenerationsComplete(e, rules) && CurrentPublished(e) && Progress(e, pid, i.(pc := pc), rules)
  {
    hide Complete, BuiltSoFar;
  }

  lemma OtherProgress(d: Disk, e: Disk, pid: Pid, other: Pid, i: Installer, rules: Rules)
    requires Grows(d, e) && OthersKept(d, e, pid) && other != pid && Progress(d, other, i, rules)
    ensures Progress(e, other, i, rules)
  {
    assert (other, i.gen) in d.staging <==> (other, i.gen) in e.staging;
    hide Complete;
  }

  lemma DiskFrame(s: State, pid: Pid, step: Step, rules: Rules)
    requires Enabled(s, pid, step)
    ensures Grows(s.disk, Apply(s, pid, step, rules).disk) && OthersKept(s.disk, Apply(s, pid, step, rules).disk, pid)
    ensures forall p :: p != pid ==>
              (p in s.installers <==> p in Apply(s, pid, step, rules).installers)
              && (p in s.installers ==> Apply(s, pid, step, rules).installers[p] == s.installers[p])
  {
    if step.Advance? {
      ActGrows(s.disk, pid, s.installers[pid], rules);
      ActLeavesOthers(s.disk, pid, s.installers[pid], rules);
      hide Act, Grows, OthersKept;
    }
  }

  lemma OwnStep(s: State, pid: Pid, step: Step, rules: Rules)
    requires Invariant(s, rules) && Enabled(s, pid, step)
    ensures GenerationsComplete(Apply(s, pid, step, rules).disk, rules) && CurrentPublished(Apply(s, pid, step, rules).disk)
    ensures pid in Apply(s, pid, step, rules).installers ==>
              Progress(Apply(s, pid, step, rules).disk, pid, Apply(s, pid, step, rules).installers[pid], rules)
  {
    if step.Advance? {
      if Linked(s.installers[pid].pc) {
        LinkProgress(s.disk, pid, s.installers[pid], rules);
      } else {
        BuildProgress(s.disk, pid, s.installers[pid], rules);
      }
      hide Act, GenerationsComplete, Progress, CurrentPublished;
    }
  }

  lemma InvariantStep(s: State, pid: Pid, step: Step, rules: Rules)
    requires Invariant(s, rules) && Enabled(s, pid, step)
    ensures Invariant(Apply(s, pid, step, rules), rules)
  {
    OwnStep(s, pid, step, rules);
    DiskFrame(s, pid, step, rules);
    var s' := Apply(s, pid, step, rules);
    hide Apply, Enabled, Progress, Grows, OthersKept, GenerationsComplete, CurrentPublished;
    forall p | p in s'.installers ensures Progress(s'.disk, p, s'.installers[p], rules) {
      if p != pid {
        OtherProgress(s.disk, s'.disk, pid, p, s.installers[p], rules);
      }
    }
  }

  lemma RunGrows(states: seq<State>, steps: seq<(Pid, Step)>, rules: Rules, n: nat)
    requires IsRun(states, steps, rules) && 0 < n < |states|
    ensures Grows(states[n - 1].disk, states[n].disk)
  {
    DiskFrame(states[n - 1], steps[n - 1].0, steps[n - 1].1, rules);
    hide Apply, Enabled, Grows;
  }

  lemma {:induction false} RunKeepsInvariant(states: seq<State>, steps: seq<(Pid, Step)>, rules: Rules, n: nat)
    requires IsRun(states, steps, rules) && n < |states|
    ensures Invariant(states[n], rules)
  {
    if n > 0 {
      RunKeepsInvariant(states, steps, rules, n - 1);
      InvariantStep(states[n - 1], steps[n - 1].0, steps[n - 1].1, rules);
    }
  }

  // ---- the guarantees ----

  /** In every interleaving, with crashes anywhere, current is absent or names a
      generation that was complete before it got its name. */
  lemma NeverPartial(states: seq<State>, steps: seq<(Pid, Step)>, rules: Rules, n: nat)
    requires IsRun(states, steps, rules) && n < |states|
    ensures states[n].disk.current.Some? ==>
              states[n].disk.current.value in states[n].disk.generations
              && var t := states[n].disk.generations[states[n].disk.current.value];
                 rules.required <= t.files.Keys && "bin/vc-slack" in t.files && "portal/dist/index.html" in t.files
                 && t.manifest == Some(rules.sha(t.files))
  {
    RunKeepsInvariant(states, steps, rules, n);
    hide IsRun;
  }

  /** What doctor needs: the public link, and a generation behind current with the
      launcher, its dependencies and a manifest that fits its files. So it notices
      when files of that generation are altered, unless their digests collide. */
  lemma DoctorDetects(d: Disk, rules: Rules, files: Files)
    ensures Doctor(d, rules) <==>
              d.publicLink && d.current.Some? && d.current.value in d.generations
              && var t := d.generations[d.current.value];
                 t.deps && "bin/vc-slack" in t.files && t.manifest == Some(rules.sha(t.files))
    ensures Doctor(d, rules) ==>
              var (g, t) := (d.current.value, d.generations[d.current.value]);
              rules.sha(files) != rules.sha(t.files) ==> !Doctor(d.(generations := d.generations[g := t.(files := files)]), rules)
  {
  }

  /** A published generation keeps its content for the rest of the run. */
  lemma {:induction false} GenerationsAreImmutable(states: seq<State>, steps: seq<(Pid, Step)>, rules: Rules, m: nat, n: nat, g: Gen)
    requires IsRun(states, steps, rules) && m <= n < |states| && g in states[m].disk.generations
    ensures g in states[n].disk.generations && states[n].disk.generations[g] == states[m].disk.generations[g]
    decreases n - m
  {
    hide IsRun;
    if m < n {
      GenerationsAreImmutable(states, steps, rules, m, n - 1, g);
      RunGrows(states, steps, rules, n);
    }
  }

  /** Once an install has finished, doctor accepts exactly when the generation
      that current names has node_modules: install never looks at these. */
  lemma {:induction false} DoctorExactly(states: seq<State>, steps: seq<(Pid, Step)>, rules: Rules, m: nat, n: nat, pid: Pid)
    requires IsRun(states, steps, rules) && m <= n < |states|
    requires pid in states[m].installers && states[m].installers[pid].pc == Finished
    ensures var d := states[n].disk;
            && d.current.Some? && d.current.value in d.generations && d.publicLink
            && (Doctor(d, rules) <==> d.generations[d.current.value].deps)
    decreases n - m
  {
    RunKeepsInvariant(states, steps, rules, n);
    if m < n {
      DoctorExactly(states, steps, rules, m, n - 1, pid);
      RunGrows(states, steps, rules, n);
      hide IsRun;
    } else {
      hide IsRun;
      assert Progress(states[n].disk, pid, states[n].installers[pid], rules);
    }
  }

  /** pnpm leaves node_modules behind whenever it succeeds. */
  ghost predicate PnpmInstalls(states: seq<State>, steps: seq<(Pid, Step)>, rules: Rules)
    requires IsRun(states, steps, rules)
  {
    forall i :: 0 <= i < |steps| && steps[i].1.Advance? && states[i].installers[steps[i].0].pc == Installing ==>
      states[i].disk.staging[(steps[i].0, states[i].installers[steps[i].0].gen)].deps
  }

  /** What is past that step, or published, has node_modules. */
  ghost predicate DepsThere(s: State) {
    && (forall g :: g in s.disk.generations ==> s.disk.generations[g].deps)
    && (forall pid :: pid in s.installers && s.installers[pid].pc in {Building, Writing, Deciding, Renaming}
                      && (pid, s.installers[pid].gen) in s.disk.staging ==>
          s.disk.staging[(pid, s.installers[pid].gen)].deps)
  }

  lemma ActKeepsDeps(d: Disk, pid: Pid, i: Installer, rules: Rules)
    requires i.pc !in {Finished, Failed} && (Staged(i.pc) ==> (pid, i.gen) in d.staging)
    requires forall g :: g in d.generations ==> d.generations[g].deps
    requires i.pc in {Installing, Building, Writing, Deciding, Renaming} ==> d.staging[(pid, i.gen)].deps
    ensures var (e, pc) := Act(d, pid, i, rules);
            && (forall g :: g in e.generations ==> e.generations[g].deps)
            && (pc in {Building, Writing, Deciding, Renaming} ==> (pid, i.gen) in e.staging && e.staging[(pid, i.gen)].deps)
  {
  }

  lemma DepsStep(s: State, pid: Pid, step: Step, rules: Rules)
    requires DepsThere(s) && Enabled(s, pid, step)
    requires step.Advance? && s.installers[pid].pc == Installing ==> s.disk.staging[(pid, s.installers[pid].gen)].deps
    ensures DepsThere(Apply(s, pid, step, rules))
  {
    if step.Advance? {
      DiskFrame(s, pid, step, rules);
      ActKeepsDeps(s.disk, pid, s.installers[pid], rules);
      hide Act, Grows;
    } else {
      hide Act;
    }
  }

  lemma {:induction false} DepsKept(states: seq<State>, steps: seq<(Pid, Step)>, rules: Rules, n: nat)
    requires IsRun(states, steps, rules) && PnpmInstalls(states, steps, rules) && n < |states|
    ensures DepsThere(states[n])
  {
    if n > 0 {
      DepsKept(states, steps, rules, n - 1);
      hide DepsThere, Apply;
      DepsStep(states[n - 1], steps[n - 1].0, steps[n - 1].1, rules);
    }
  }

  /** So with a pnpm that does, doctor accepts after an uninterrupted install, and
      goes on accepting whatever other installers do, fail at, or crash in. */
  lemma DoctorAfterInstall(states: seq<State>, steps: seq<(Pid, Step)>, rules: Rules, m: nat, n: nat, pid: Pid)
    requires IsRun(states, steps, rules) && PnpmInstalls(states, steps, rules) && m <= n < |states|
    requires pid in states[m].installers && states[m].installers[pid].pc == Finished
    ensures Doctor(states[n].disk, rules)
  {
    DoctorExactly(states, steps, rules, m, n, pid);
    DepsKept(states, steps, rules, n);
    hide IsRun, PnpmInstalls, Doctor;
  }

  // ---- what current names ----

  /** Installer pid takes the step that makes current name its generation. */
  predicate SwapsNow(s: State, pid: Pid, step: Step, g: Gen) {
    step.Advance? && pid in s.installers && s.installers[pid] == Installer(g, LinkReady)
  }

  lemma CurrentAfter(s: State, pid: Pid, step: Step, rules: Rules)
    requires Enabled(s, pid, step)
    ensures var (d, e) := (s.disk, Apply(s, pid, step, rules).disk);
            && (forall g :: SwapsNow(s, pid, step, g) ==> e.current == Some(g))
            && ((forall g :: !SwapsNow(s, pid, step, g)) ==> e.current == d.current)
  {
    if step.Advance? {
      var i := s.installers[pid];
      assert i.pc == LinkReady ==> SwapsNow(s, pid, step, i.gen);
    }
  }

  /** The j-th step of the run makes current name g. */
  ghost predicate SwapAt(states: seq<State>, steps: seq<(Pid, Step)>, j: int, pid: Pid, g: Gen) {
    0 <= j < |steps| && j < |states| && steps[j].0 == pid && SwapsNow(states[j], pid, steps[j].1, g)
  }

  lemma StepTaken(states: seq<State>, steps: seq<(Pid, Step)>, rules: Rules, n: nat)
    requires IsRun(states, steps, rules) && 0 < n < |states|
    ensures |states| == |steps| + 1 && Enabled(states[n - 1], steps[n - 1].0, steps[n - 1].1)
    ensures states[n] == Apply(states[n - 1], steps[n - 1].0, steps[n - 1].1, rules)
  {
    hide Enabled, Apply;
  }

  /** current changes at no other step. */
  lemma CurrentChangesBySwap(states: seq<State>, steps: seq<(Pid, Step)>, rules: Rules, i: nat)
    requires IsRun(states, steps, rules) && i + 1 < |states| && states[i + 1].disk.current != states[i].disk.current
    ensures exists pid, g :: SwapAt(states, steps, i, pid, g) && states[i + 1].disk.current == Some(g)
  {
    StepTaken(states, steps, rules, i + 1);
    hide IsRun, Enabled, Apply, SwapsNow;
    var s, pid, step := states[i], steps[i].0, steps[i].1;
    CurrentAfter(s, pid, step, rules);
    var g :| SwapsNow(s, pid, step, g);
    assert SwapAt(states, steps, i, pid, g);
  }

  /** Between two points of a run nobody makes current name another generation. */
  ghost predicate NoOtherSwap(states: seq<State>, steps: seq<(Pid, Step)>, m: int, n: int, g: Gen) {
    forall j, pid, other :: m < j < n && SwapAt(states, steps, j, pid, other) ==> other == g
  }

  /** After its swap, and until another installer's, current names the installer's
      generation, whatever it named before. */
  lemma {:induction false} CurrentAfterSwap(states: seq<State>, steps: seq<(Pid, Step)>, rules: Rules, m: nat, n: nat, pid: Pid, g: Gen)
    requires IsRun(states, steps, rules) && m < n < |states| && SwapAt(states, steps, m, pid, g)
    requires NoOtherSwap(states, steps, m, n, g)
    ensures states[n].disk.current == Some(g)
    decreases n
  {
    StepTaken(states, steps, rules, n);
    hide IsRun, Enabled, Apply, SwapsNow;
    var s, p, step := states[n - 1], steps[n - 1].0, steps[n - 1].1;
    CurrentAfter(s, p, step, rules);
    if n - 1 > m {
      CurrentAfterSwap(states, steps, rules, m, n - 1, pid, g);
      forall other | SwapsNow(s, p, step, other) ensures other == g {
        assert SwapAt(states, steps, n - 1, p, other);
      }
    }
  }

  predicate PastSwap(pc: Pc) { pc in {AtLauncher, PublicLinking, PublicReady, Finished} }

  lemma ReachesPastSwap(s: State, pid: Pid, step: Step, rules: Rules, p: Pid)
    requires Enabled(s, pid, step)
    requires var s' := Apply(s, pid, step, rules); p in s'.installers && PastSwap(s'.installers[p].pc)
    ensures var g := Apply(s, pid, step, rules).installers[p].gen;
            (p in s.installers && PastSwap(s.installers[p].pc) && s.installers[p].gen == g)
            || (p == pid && SwapsNow(s, pid, step, g))
  {
  }

  /** Whoever is past its swap has made it. */
  lemma {:induction false} SwapWasMade(states: seq<State>, steps: seq<(Pid, Step)>, rules: Rules, n: nat, pid: Pid)
    requires IsRun(states, steps, rules) && n < |states|
    requires pid in states[n].installers && PastSwap(states[n].installers[pid].pc)
    ensures exists m :: 0 <= m < n && SwapAt(states, steps, m, pid, states[n].installers[pid].gen)
  {
    RunStarts(states, steps, rules);
    hide IsRun, Enabled, Apply, SwapsNow;
    if n > 0 {
      StepTaken(states, steps, rules, n);
      var p, step := steps[n - 1].0, steps[n - 1].1;
      ReachesPastSwap(states[n - 1], p, step, rules, pid);
      if SwapsNow(states[n - 1], p, step, states[n].installers[pid].gen) && p == pid {
        assert SwapAt(states, steps, n - 1, pid, states[n].installers[pid].gen);
      } else {
        SwapWasMade(states, steps, rules, n - 1, pid);
      }
    }
  }

  lemma RunStarts(states: seq<State>, steps: seq<(Pid, Step)>, rules: Rules)
    requires IsRun(states, steps, rules)
    ensures |states| == |steps| + 1 && states[0].installers == map[]
  {
    hide Enabled, Apply;
  }

  /** An install that has finished has made current name its generation, and current
      still does unless another installer came after it. */
  lemma InstalledIsCurrent(states: seq<State>, steps: seq<(Pid, Step)>, rules: Rules, n: nat, pid: Pid) returns (m: nat)
    requires IsRun(states, steps, rules) && n < |states|
    requires pid in states[n].installers && states[n].installers[pid].pc == Finished
    ensures m < n && SwapAt(states, steps, m, pid, states[n].installers[pid].gen)
    ensures NoOtherSwap(states, steps, m, n, states[n].installers[pid].gen) ==>
              states[n].disk.current == Some(states[n].installers[pid].gen)
  {
    var g := states[n].installers[pid].gen;
    SwapWasMade(states, steps, rules, n, pid);
    hide IsRun, SwapAt, NoOtherSwap;
    m :| 0 <= m < n && SwapAt(states, steps, m, pid, g);
    if NoOtherSwap(states, steps, m, n, g) {
      CurrentAfterSwap(states, steps, rules, m, n, pid, g);
    }
  }

  // ---- an install without node_modules ----

  /** A state that some run reaches. */
  ghost predicate Reached(s: State, rules: Rules) {
    exists states, steps :: IsRun(states, steps, rules) && states[|states| - 1] == s
  }

  lemma NextReached(s: State, pid: Pid, step: Step, rules: Rules)
    requires Reached(s, rules) && Enabled(s, pid, step)
    ensures Reached(Apply(s, pid, step, rules), rules)
  {
    var states, steps :| IsRun(states, steps, rules) && states[|states| - 1] == s;
    var s' := Apply(s, pid, step, rules);
    hide Apply, Enabled;
    assert IsRun(states + [s'], steps + [(pid, step)], rules);
  }

  lemma StartReached(rules: Rules)
    ensures Reached(START, rules)
  {
    assert IsRun([START], [], rules);
  }

  /** One installer, its place, and its disk. */
  function At(pid: Pid, gen: Gen, pc: Pc, d: Disk): State { State(d, map[pid := Installer(gen, pc)]) }

  lemma Advanced(pid: Pid, gen: Gen, pc: Pc, d: Disk, rules: Rules)
    requires Reached(At(pid, gen, pc, d), rules) && pc !in {Finished, Failed} && (Staged(pc) ==> (pid, gen) in d.staging)
    ensures var (e, next) := Act(d, pid, Installer(gen, pc), rules); Reached(At(pid, gen, next, e), rules)
  {
    var (e, next) := Act(d, pid, Installer(gen, pc), rules);
    NextReached(At(pid, gen, pc, d), pid, Advance, rules);
    hide Act, Reached;
    assert Apply(At(pid, gen, pc, d), pid, Advance, rules) == At(pid, gen, next, e);
  }

  /** A payload that has everything but node_modules. */
  ghost predicate Bare(t: Tree, rules: Rules) {
    rules.required <= t.files.Keys && LAUNCHER in t.files && INDEX in t.files && !t.deps
  }

  lemma BareCopied(pid: Pid, gen: Gen, t: Tree, rules: Rules)
    ensures Reached(At(pid, gen, Copying, START.disk.(staging := map[(pid, gen) := t])), rules)
  {
    hide Reached;
    StartReached(rules);
    NextReached(START, pid, Begin(gen), rules);
    assert Apply(START, pid, Begin(gen), rules) == At(pid, gen, Checking, START.disk);
    Advanced(pid, gen, Checking, START.disk, rules);
    Advanced(pid, gen, Clearing, START.disk, rules);
    assert START.disk.staging - {(pid, gen)} == map[];
    Advanced(pid, gen, Making, START.disk, rules);
    var made := START.disk.(staging := map[(pid, gen) := EMPTY]);
    assert START.disk.staging[(pid, gen) := EMPTY] == map[(pid, gen) := EMPTY];
    NextReached(At(pid, gen, Copying, made), pid, Write(t), rules);
    assert made.staging[(pid, gen) := t] == map[(pid, gen) := t];
  }

  lemma BareBuilt(pid: Pid, gen: Gen, t: Tree, rules: Rules)
    requires Bare(t, rules)
    ensures var built := t.(manifest := Some(rules.sha(t.files)));
            Reached(At(pid, gen, Linking, START.disk.(generations := map[gen := built])), rules)
  {
    BareCopied(pid, gen, t, rules);
    hide Reached;
    var d := START.disk.(staging := map[(pid, gen) := t]);
    Advanced(pid, gen, Copying, d, rules);
    Advanced(pid, gen, Installing, d, rules);
    Advanced(pid, gen, Building, d, rules);
    Advanced(pid, gen, Writing, d, rules);
    var built := t.(manifest := Some(rules.sha(t.files)));
    var e := START.disk.(staging := map[(pid, gen) := built]);
    assert d.staging[(pid, gen) := built] == e.staging;
    Advanced(pid, gen, Deciding, e, rules);
    Advanced(pid, gen, Renaming, e, rules);
    assert e.staging - {(pid, gen)} == map[] && e.generations[gen := built] == map[gen := built];
  }

  /** With a pnpm that makes no node_modules an install finishes, and doctor
      refuses what it published. */
  lemma BareInstall(pid: Pid, gen: Gen, t: Tree, rules: Rules) returns (s: State)
    requires Bare(t, rules)
    ensures Reached(s, rules) && pid in s.installers && s.installers[pid].pc == Finished && !Doctor(s.disk, rules)
  {
    BareBuilt(pid, gen, t, rules);
    hide Reached;
    var built := t.(manifest := Some(rules.sha(t.files)));
    var d0 := START.disk.(generations := map[gen := built]);
    Advanced(pid, gen, Linking, d0, rules);
    var d1 := Act(d0, pid, Installer(gen, Linking), rules).0;
    Advanced(pid, gen, LinkReady, d1, rules);
    var d2 := Act(d1, pid, Installer(gen, LinkReady), rules).0;
    Advanced(pid, gen, AtLauncher, d2, rules);
    Advanced(pid, gen, PublicLinking, d2, rules);
    var d3 := Act(d2, pid, Installer(gen, PublicLinking), rules).0;
    Advanced(pid, gen, PublicReady, d3, rules);
    var d4 := Act(d3, pid, Installer(gen, PublicReady), rules).0;
    s := At(pid, gen, Finished, d4);
  }

  // ---- failures ----

  /** An installer may crash wherever it is, and fail at every operation. */
  lemma MayBreakAnywhere(s: State, pid: Pid)
    requires pid in s.installers
    ensures Enabled(s, pid, Crash)
    ensures s.installers[pid].pc in {Finished, Failed} || Enabled(s, pid, Fail)
  {
  }

  /** Copying may leave any tree, and the tools any that keeps the files and modules there are. */
  lemma ToolsMayWrite(pc: Pc, before: Tree, after: Tree)
    requires pc == Copying
             || (pc in {Installing, Building} && before.files.Keys <= after.files.Keys && (before.deps ==> after.deps))
    ensures MayWrite(pc, before, after)
  {
  }

  /** A failure, unlike a crash, leaves nothing behind: neither of the temporary links,
      and after the handler no staging. */
  lemma FailureLeavesNothing(s: State, pid: Pid, rules: Rules)
    requires Enabled(s, pid, Fail)
    ensures var (d, i) := (Apply(s, pid, Fail, rules).disk, Apply(s, pid, Fail, rules).installers[pid]);
            if s.installers[pid].pc in {Copying, Installing, Building, Writing, Deciding, Renaming} then
              i.pc == CleaningUp && (pid, i.gen) !in Act(d, pid, i, rules).0.staging && Act(d, pid, i, rules).1 == Failed
            else i.pc == Failed && pid !in d.currentTmp && pid !in d.publicTmp
    ensures Apply(s, pid, Fail, rules).disk.current == s.disk.current
            && Apply(s, pid, Fail, rules).disk.generations == s.disk.generations
  {
  }
}
