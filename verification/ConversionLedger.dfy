/** The phase ledger of `src/conversion.rs`: the report a conversion fills in, step by fallible step. */
module ConversionLedger {
  import opened Prelude

  datatype Phase = Decode | Validate | Plan | Migrate | Preflight | Encode

  datatype Status = Pending | Completed | Failed | SkippedDryRun

  const PHASES := [Decode, Validate, Plan, Migrate, Preflight, Encode]

  function IndexOf(phase: Phase): (k: nat)
    ensures k < 6 && PHASES[k] == phase
  {
    match phase
    case Decode => 0
    case Validate => 1
    case Plan => 2
    case Migrate => 3
    case Preflight => 4
    case Encode => 5
  }

  datatype Format = Xml | Cf | Edt

  /** Everything that can go wrong, one constructor a place in the source; `entry` numbers the files of a tree. */
  datatype Site =
    | ArtifactPaths | ReportPath | LoadProfiles | SourceId | TargetId | SourceProfile | TargetProfile
    | SourceCoordinates | TargetCoordinates
    | ReadTree | Dialects | DecodeTree | DecodeCf
    | ValidateTree | ValidateImage
    | MigrationGraph | MigrationRoute | SameProfile | UnsupportedRoute
    | CanonicalModel(entry: nat) | Execute(entry: nat) | Rebuild(entry: nat)
    | EncodeEntry(entry: nat) | RereadEntry(entry: nat) | EntryDialect(entry: nat) | TargetEntry(entry: nat)
    | TargetTree | SourceAdapter | BaseFreeCompile | BootstrapCompile | AssembleCf | WriteCf | ValidateCf | CountsMatch
    | TargetAdapter | Staging | ExportImage | ExportFailures | OpaqueEntries | ReadStaging | TargetDialects
    | DecodeTarget | ValidateTarget | Destination
    | Publish

  /** A place where a conversion can fail, and the phase the failure is booked on. */
  datatype Step = Step(phase: Phase, site: Site)

  /** What a request and its inputs decide about the course of a conversion. */
  datatype Job = Job(
    source: Format, target: Format, dryRun: bool, hasReport: bool,
    metadata: seq<bool>,        // for each file of the source tree: is it a metadata document?
    planIsEmpty: bool,          // source and target profile need no migration
    baseFree: bool,             // the target profile is compiled without a base
    sizes: (nat, nat),          // entries before and after, where another crate counts them
    reported: nat -> bool)      // does a failed migration of this file come with a report?

  datatype Adapter = XmlToCfBaseFree | XmlToCfWithBase | CfToXmlExport

  datatype PlanKind = Graph | Direct(adapter: Adapter) | Repack

  /** The plan each route reports. */
  function Planned(job: Job): PlanKind {
    if job.source.Xml? && job.target.Xml? then Graph
    else if job.source.Xml? then Direct(if job.baseFree then XmlToCfBaseFree else XmlToCfWithBase)
    else if job.target.Xml? then Direct(CfToXmlExport)
    else Repack
  }

  /** Entries before and after: a tree of files keeps their number. */
  function Counted(job: Job): (nat, nat) {
    if job.source.Xml? && job.target.Xml? then (|job.metadata|, |job.metadata|) else job.sizes
  }

  // ---- the steps of a conversion, in order

  const Prologue: seq<Step> := [
    Step(Decode, LoadProfiles), Step(Decode, SourceId), Step(Decode, TargetId), Step(Decode, SourceProfile),
    Step(Decode, TargetProfile), Step(Decode, SourceCoordinates), Step(Decode, TargetCoordinates)
  ]

  function Paths(job: Job): seq<Step> {
    if job.hasReport then [Step(Decode, ArtifactPaths), Step(Decode, ReportPath)] else [Step(Decode, ArtifactPaths)]
  }

  function Opening(job: Job): seq<Step> {
    Paths(job) + Prologue
  }

  function MigrateSteps(job: Job, n: nat): seq<Step>
    requires n <= |job.metadata|
  {
    if n == 0 then []
    else MigrateSteps(job, n - 1) + MigrateOne(job, n - 1)
  }

  function MigrateOne(job: Job, i: nat): seq<Step>
    requires i < |job.metadata|
  {
    if !job.metadata[i] then []
    else if job.planIsEmpty then [Step(Migrate, CanonicalModel(i)), Step(Migrate, Execute(i))]
    else [Step(Migrate, CanonicalModel(i)), Step(Migrate, Execute(i)), Step(Migrate, Rebuild(i))]
  }

  function EncodeSteps(job: Job, n: nat): seq<Step>
    requires n <= |job.metadata|
  {
    if n == 0 then []
    else EncodeSteps(job, n - 1) + EncodeOne(job, n - 1)
  }

  function EncodeOne(job: Job, i: nat): seq<Step>
    requires i < |job.metadata|
  {
    if job.metadata[i] then
      [Step(Preflight, EncodeEntry(i)), Step(Preflight, RereadEntry(i)), Step(Preflight, EntryDialect(i)),
       Step(Preflight, TargetEntry(i))]
    else [Step(Preflight, TargetEntry(i))]
  }

  function Publishing(job: Job): seq<Step> {
    if job.dryRun then [] else [Step(Encode, Publish)]
  }

  const DecodingXml: seq<Step> := [Step(Decode, ReadTree), Step(Decode, Dialects), Step(Decode, DecodeTree)]
  const ReadXml: seq<Step> := DecodingXml + [Step(Validate, ValidateTree)]
  const ReadCf: seq<Step> := [Step(Decode, DecodeCf)] + [Step(Validate, ValidateImage)]
  const Planning: seq<Step> := [Step(Plan, MigrationGraph), Step(Plan, MigrationRoute)]
  const TargetChecks: seq<Step> := [Step(Preflight, TargetTree), Step(Preflight, Destination)]

  function XmlToXml(job: Job): seq<Step> {
    ReadXml + Planning + MigrateSteps(job, |job.metadata|) + EncodeSteps(job, |job.metadata|)
    + (TargetChecks + Publishing(job))
  }

  /** Without a base the tree is read but not decoded: the compiler reads it itself. */
  function Reading(job: Job): seq<Step> {
    if job.baseFree then [Step(Decode, ReadTree)] else ReadXml
  }

  function Assembling(job: Job): seq<Step> {
    (if job.baseFree then [Step(Preflight, SourceAdapter), Step(Preflight, BaseFreeCompile)]
     else [Step(Preflight, BootstrapCompile)])
    + [Step(Preflight, AssembleCf), Step(Preflight, WriteCf), Step(Preflight, ValidateCf), Step(Preflight, CountsMatch),
       Step(Preflight, Destination)]
  }

  function XmlToCf(job: Job): seq<Step> {
    Reading(job) + (Assembling(job) + Publishing(job))
  }

  const Exporting: seq<Step> := [
    Step(Preflight, TargetAdapter), Step(Preflight, Staging), Step(Preflight, ExportImage),
    Step(Preflight, ExportFailures), Step(Preflight, OpaqueEntries), Step(Preflight, ReadStaging),
    Step(Preflight, TargetDialects), Step(Preflight, DecodeTarget), Step(Preflight, ValidateTarget),
    Step(Preflight, Destination)
  ]

  function CfToXml(job: Job): seq<Step> {
    ReadCf + (Exporting + Publishing(job))
  }

  const Repacking: seq<Step> := [Step(Preflight, WriteCf), Step(Preflight, ValidateCf), Step(Preflight, Destination)]

  function CfToCf(job: Job): seq<Step> {
    ReadCf + [Step(Plan, SameProfile)] + (Repacking + Publishing(job))
  }

  function Route(job: Job): seq<Step> {
    if job.source.Edt? || job.target.Edt? then [Step(Plan, UnsupportedRoute)]
    else if job.source.Xml? then (if job.target.Xml? then XmlToXml(job) else XmlToCf(job))
    else (if job.target.Xml? then CfToXml(job) else CfToCf(job))
  }

  function StepsOf(job: Job): seq<Step> {
    Opening(job) + Route(job)
  }

  /** There is no adapter between EDT and CF, whatever the inputs. */
  predicate Succeeds(step: Step, passes: Step -> bool) {
    passes(step) && !step.site.UnsupportedRoute?
  }

  predicate AllPass(steps: seq<Step>, passes: Step -> bool) {
    forall k :: 0 <= k < |steps| ==> Succeeds(steps[k], passes)
  }

  predicate OfPhase(steps: seq<Step>, phase: Phase) {
    forall k :: 0 <= k < |steps| ==> steps[k].phase == phase && !steps[k].site.UnsupportedRoute?
  }

  /** `tried` are the steps of `steps` before the one that failed, after those of `before`. */
  ghost predicate StoppedAt(tried: seq<Step>, before: seq<Step>, steps: seq<Step>, failed: Step) {
    exists n :: 0 <= n < |steps| && tried == before + steps[..n] && steps[n] == failed
  }

  lemma StopsInFront(tried: seq<Step>, before: seq<Step>, a: seq<Step>, b: seq<Step>, failed: Step)
    requires StoppedAt(tried, before, a, failed)
    ensures StoppedAt(tried, before, a + b, failed)
  {
    var n :| 0 <= n < |a| && tried == before + a[..n] && a[n] == failed;
    assert (a + b)[..n] == a[..n] && (a + b)[n] == failed;
  }

  lemma StopsBehind(tried: seq<Step>, before: seq<Step>, a: seq<Step>, b: seq<Step>, failed: Step)
    requires StoppedAt(tried, before + a, b, failed)
    ensures StoppedAt(tried, before, a + b, failed)
  {
    var n :| 0 <= n < |b| && tried == before + a + b[..n] && b[n] == failed;
    assert (a + b)[..|a| + n] == a + b[..n] && (a + b)[|a| + n] == failed;
    assert before + a + b[..n] == before + (a + b[..n]);
  }

  lemma StopsWithin(tried: seq<Step>, before: seq<Step>, a: seq<Step>, b: seq<Step>, c: seq<Step>, failed: Step)
    requires StoppedAt(tried, before + a, b, failed)
    ensures StoppedAt(tried, before, a + b + c, failed)
  {
    hide StoppedAt;
    StopsBehind(tried, before, a, b, failed);
    StopsInFront(tried, before, a + b, c, failed);
  }

  lemma {:induction false} StopsWhileMigrating(tried: seq<Step>, before: seq<Step>, job: Job, i: nat, n: nat, failed: Step)
    requires i < n <= |job.metadata| && StoppedAt(tried, before + MigrateSteps(job, i), MigrateOne(job, i), failed)
    ensures StoppedAt(tried, before, MigrateSteps(job, n), failed)
    decreases n
  {
    hide StoppedAt, MigrateOne;
    if n == i + 1 {
      StopsBehind(tried, before, MigrateSteps(job, i), MigrateOne(job, i), failed);
    } else {
      StopsWhileMigrating(tried, before, job, i, n - 1, failed);
      StopsInFront(tried, before, MigrateSteps(job, n - 1), MigrateOne(job, n - 1), failed);
    }
  }

  lemma {:induction false} StopsWhileEncoding(tried: seq<Step>, before: seq<Step>, job: Job, i: nat, n: nat, failed: Step)
    requires i < n <= |job.metadata| && StoppedAt(tried, before + EncodeSteps(job, i), EncodeOne(job, i), failed)
    ensures StoppedAt(tried, before, EncodeSteps(job, n), failed)
    decreases n
  {
    hide StoppedAt, EncodeOne;
    if n == i + 1 {
      StopsBehind(tried, before, EncodeSteps(job, i), EncodeOne(job, i), failed);
    } else {
      StopsWhileEncoding(tried, before, job, i, n - 1, failed);
      StopsInFront(tried, before, EncodeSteps(job, n - 1), EncodeOne(job, n - 1), failed);
    }
  }

  // ---- the ledger

  type Ledger = seq<(Phase, Status)>

  function Marked(k: nat): (l: Ledger)
    ensures |l| == 6 && forall i :: 0 <= i < 6 ==> l[i] == (PHASES[i], if i < k then Completed else Pending)
  {
    seq(6, i requires 0 <= i < 6 => (PHASES[i], if i < k then Completed else Pending))
  }

  predicate Complete(l: Ledger) {
    |l| == 6 && forall i :: 0 <= i < 6 ==> l[i].0 == PHASES[i]
  }

  lemma MarkedNext(k: nat)
    requires k < 6
    ensures Marked(k)[k := (PHASES[k], Completed)] == Marked(k + 1)
  {
  }

  /** The files migrated before number `n`. */
  function Migrated(job: Job, n: nat): seq<(nat, bool)>
    requires n <= |job.metadata|
  {
    if n == 0 then [] else Migrated(job, n - 1) + (if job.metadata[n - 1] then [(n - 1, true)] else [])
  }

  /** What the list of migrations shows when `failed` stopped the loop over the files. */
  function MigratedUpTo(job: Job, failed: Step): seq<(nat, bool)> {
    match failed.site
    case CanonicalModel(i) => if i < |job.metadata| then Migrated(job, i) else []
    case Execute(i) => if i < |job.metadata| then Migrated(job, i) + (if job.reported(i) then [(i, false)] else []) else []
    case Rebuild(i) => if i < |job.metadata| then Migrated(job, i) + [(i, true)] else []
    case _ => []
  }

  lemma MigratedNext(job: Job, i: nat)
    requires i < |job.metadata| && job.metadata[i]
    ensures Migrated(job, i + 1) == Migrated(job, i) + [(i, true)]
  {
  }

  /** What the user is told of a failing step, `code` being for programs. */
  datatype Wording = Wording(code: string, message: string, path: Option<string>)

  datatype Diagnostic = Diagnostic(code: string, phase: Phase, message: string, path: Option<string>)

  function Told(step: Step, words: Wording): Diagnostic {
    Diagnostic(words.code, step.phase, words.message, words.path)
  }

  class ConversionReport {
    const job: Job
    const passes: Step -> bool
    const wording: Step -> Wording

    var ok: bool
    var phases: Ledger
    var plan: Option<PlanKind>
    var migrations: seq<(nat, bool)>
    var preflight: Option<(nat, nat)>
    var publication: Option<Format>
    var outputPublished: bool
    var errors: seq<Diagnostic>
    /** The step behind each error. */
    ghost var failed: seq<Step>
    /** The steps that have succeeded. */
    ghost var tried: seq<Step>

    constructor (job: Job, passes: Step -> bool, wording: Step -> Wording)
      ensures this.job == job && this.passes == passes && this.wording == wording && tried == [] && migrations == [] && At(0)
    {
      this.job, this.passes, this.wording := job, passes, wording;
      ok, outputPublished := false, false;
      phases := seq(6, i requires 0 <= i < 6 => (PHASES[i], Pending));
      plan, migrations, preflight, publication, errors, failed, tried := None, [], None, None, [], [], [];
      new;
      assert phases == Marked(0);
    }

    /** `k` phases are completed and nothing has failed. */
    ghost predicate At(k: nat)
      reads this`ok, this`phases, this`plan, this`preflight, this`publication, this`outputPublished
      reads this`errors, this`failed, this`tried
    {
      && phases == Marked(k) && errors == [] && failed == [] && !ok
      && plan == (if k >= 3 then Some(Planned(job)) else None)
      && preflight == (if k >= 5 then Some(Counted(job)) else None)
      && !outputPublished && publication == None
      && AllPass(tried, passes)
    }

    /** One step failed: its phase alone is failed, with `k` phases completed, and nothing is published. */
    ghost predicate Stopped(k: nat)
      reads this`ok, this`phases, this`plan, this`preflight, this`publication, this`outputPublished
      reads this`errors, this`failed, this`tried
    {
      && |failed| == 1 && errors == [Told(failed[0], wording(failed[0]))]
      && !Succeeds(failed[0], passes) && !ok
      && k <= IndexOf(failed[0].phase)
      && phases == Marked(k)[IndexOf(failed[0].phase) := (failed[0].phase, Failed)]
      && (k == IndexOf(failed[0].phase) || failed[0].site.UnsupportedRoute?)
      && plan == (if k >= 3 then Some(Planned(job)) else None)
      && preflight == (if k >= 5 then Some(Counted(job)) else None)
      && !outputPublished && publication == None
      && AllPass(tried, passes)
    }

    /** The first of `steps` to fail is the one reported, and all phases before its own are completed. */
    ghost predicate RefusedIn(before: seq<Step>, steps: seq<Step>)
      reads this`ok, this`phases, this`plan, this`preflight, this`publication, this`outputPublished
      reads this`errors, this`failed, this`tried
    {
      && |failed| == 1 && !failed[0].site.UnsupportedRoute?
      && Stopped(IndexOf(failed[0].phase)) && StoppedAt(tried, before, steps, failed[0])
    }

    /** Everything went through. */
    ghost predicate Finished()
      reads this`ok, this`phases, this`plan, this`preflight, this`publication, this`outputPublished
      reads this`errors, this`failed, this`tried
    {
      && phases == Marked(5)[5 := (Encode, if job.dryRun then SkippedDryRun else Completed)]
      && ok && errors == [] && plan == Some(Planned(job)) && preflight == Some(Counted(job))
      && outputPublished == !job.dryRun
      && publication == (if job.dryRun then None else Some(job.target))
      && AllPass(tried, passes)
    }

    // ---- what stopped a part stopped the whole

    lemma InFront(before: seq<Step>, a: seq<Step>, b: seq<Step>)
      requires RefusedIn(before, a)
      ensures RefusedIn(before, a + b)
    {
      StopsInFront(tried, before, a, b, failed[0]);
    }

    lemma Behind(before: seq<Step>, a: seq<Step>, b: seq<Step>)
      requires RefusedIn(before + a, b)
      ensures RefusedIn(before, a + b)
    {
      StopsBehind(tried, before, a, b, failed[0]);
    }

    lemma Within(before: seq<Step>, a: seq<Step>, b: seq<Step>, c: seq<Step>)
      requires RefusedIn(before + a, b)
      ensures RefusedIn(before, a + b + c)
    {
      StopsWithin(tried, before, a, b, c, failed[0]);
    }

    lemma WhileMigrating(before: seq<Step>, i: nat)
      requires i < |job.metadata| && RefusedIn(before + MigrateSteps(job, i), MigrateOne(job, i))
      ensures RefusedIn(before, MigrateSteps(job, |job.metadata|))
    {
      StopsWhileMigrating(tried, before, job, i, |job.metadata|, failed[0]);
    }

    lemma WhileEncoding(before: seq<Step>, i: nat)
      requires i < |job.metadata| && RefusedIn(before + EncodeSteps(job, i), EncodeOne(job, i))
      ensures RefusedIn(before, EncodeSteps(job, |job.metadata|))
    {
      StopsWhileEncoding(tried, before, job, i, |job.metadata|, failed[0]);
    }

    /** Finds the phase in the list and sets its status. */
    method Mark(phase: Phase, status: Status)
      requires Complete(phases)
      modifies this`phases
      ensures phases == old(phases)[IndexOf(phase) := (phase, status)]
    {
      var i := 0;
      while phases[i].0 != phase
        invariant i <= IndexOf(phase)
        decreases 6 - i
      {
        i := i + 1;
      }
      phases := phases[i := (phase, status)];
    }

    /** Books a failure: one error, and its phase failed. */
    method Failure(phase: Phase, code: string, message: string, path: Option<string>, ghost step: Step)
      requires Complete(phases)
      modifies this`ok, this`phases, this`errors, this`failed
      ensures !ok && errors == old(errors) + [Diagnostic(code, phase, message, path)] && failed == old(failed) + [step]
      ensures phases == old(phases)[IndexOf(phase) := (phase, Failed)]
    {
      ok := false;
      Mark(phase, Failed);
      errors, failed := errors + [Diagnostic(code, phase, message, path)], failed + [step];
    }

    /** A step, number `n` of `steps`: it passes, or its failure is booked and the conversion stops. */
    method Try(step: Step, ghost before: seq<Step>, ghost steps: seq<Step>, ghost n: nat) returns (good: bool)
      requires At(IndexOf(step.phase)) && !step.site.UnsupportedRoute?
      requires n < |steps| && steps[n] == step && tried == before + steps[..n]
      modifies this`ok, this`phases, this`errors, this`failed, this`tried
      ensures good == passes(step)
      ensures good ==> At(IndexOf(step.phase)) && tried == before + steps[..n + 1]
      ensures !good ==> RefusedIn(before, steps) && failed == [step]
    {
      good := passes(step);
      if good {
        tried := tried + [step];
        assert steps[..n + 1] == steps[..n] + [step];
      } else {
        var words := wording(step);
        Failure(step.phase, words.code, words.message, words.path, step);
        assert StoppedAt(tried, before, steps, step);
      }
    }

    /** A stretch of steps of one phase, each tried in turn. */
    method TryAll(phase: Phase, steps: seq<Step>, ghost before: seq<Step>) returns (good: bool)
      requires At(IndexOf(phase)) && tried == before && OfPhase(steps, phase)
      modifies this`ok, this`phases, this`errors, this`failed, this`tried
      ensures good ==> At(IndexOf(phase)) && tried == before + steps
      ensures !good ==> RefusedIn(before, steps) && |failed| == 1 && failed[0].phase == phase
    {
      hide RefusedIn, At;
      for n := 0 to |steps|
        invariant At(IndexOf(phase)) && tried == before + steps[..n]
      {
        good := Try(steps[n], before, steps, n);
        if !good {
          return;
        }
      }
      assert steps[..|steps|] == steps;
      good := true;
    }

    /** Marks the phase at hand completed. */
    method Pass(phase: Phase, ghost k: nat)
      requires k == IndexOf(phase) < 5 && phases == Marked(k)
      modifies this`phases
      ensures phases == Marked(k + 1)
    {
      MarkedNext(k);
      Mark(phase, Completed);
    }

    /** The end of every route: publish, unless this is a dry run. */
    method PublishUnlessDry(ghost before: seq<Step>) returns (good: bool)
      requires At(5) && tried == before
      modifies this`ok, this`phases, this`errors, this`failed, this`tried, this`publication, this`outputPublished
      ensures good ==> Finished() && tried == before + Publishing(job)
      ensures !good ==> RefusedIn(before, Publishing(job)) && |failed| == 1 && failed[0].phase.Encode?
    {
      if job.dryRun {
        Mark(Encode, SkippedDryRun);
      } else {
        good := Try(Step(Encode, Publish), before, Publishing(job), 0);
        if !good {
          return;
        }
        publication := Some(job.target);
        outputPublished := true;
        Mark(Encode, Completed);
      }
      ok := true;
      good := true;
    }

    /** The migration of one metadata file, with the report it leaves. */
    method ExecuteFile(i: nat, ghost before: seq<Step>) returns (good: bool)
      requires At(3) && i < |job.metadata| && job.metadata[i] && migrations == Migrated(job, i)
      requires tried == before + MigrateOne(job, i)[..1]
      modifies this`ok, this`phases, this`errors, this`failed, this`tried, this`migrations
      ensures good ==> At(3) && tried == before + MigrateOne(job, i)[..2] && migrations == Migrated(job, i) + [(i, true)]
      ensures !good ==> RefusedIn(before, MigrateOne(job, i)) && failed == [Step(Migrate, Execute(i))]
                        && migrations == MigratedUpTo(job, Step(Migrate, Execute(i)))
    {
      hide RefusedIn, At, Migrated;
      good := Try(Step(Migrate, Execute(i)), before, MigrateOne(job, i), 1);
      if good {
        migrations := migrations + [(i, true)];
      } else if job.reported(i) {
        migrations := migrations + [(i, false)];
      }
    }

    /** One metadata file: its canonical model, its migration, and the file put together again. */
    method MigrateFile(i: nat, ghost before: seq<Step>) returns (good: bool)
      requires At(3) && tried == before && i < |job.metadata| && job.metadata[i] && migrations == Migrated(job, i)
      modifies this`ok, this`phases, this`errors, this`failed, this`tried, this`migrations
      ensures good ==> At(3) && tried == before + MigrateOne(job, i) && migrations == Migrated(job, i + 1)
      ensures !good ==> RefusedIn(before, MigrateOne(job, i))
                        && |failed| == 1 && migrations == MigratedUpTo(job, failed[0])
    {
      hide RefusedIn, At, Migrated;
      MigratedNext(job, i);
      ghost var steps := MigrateOne(job, i);
      good := Try(Step(Migrate, CanonicalModel(i)), before, steps, 0);
      if good {
        good := ExecuteFile(i, before);
        if good && !job.planIsEmpty {
          good := Try(Step(Migrate, Rebuild(i)), before, steps, 2);
        }
      }
      assert steps[..|steps|] == steps;
    }

    /** The loop that migrates the files. */
    method MigrateTree(ghost before: seq<Step>) returns (good: bool)
      requires At(3) && tried == before && migrations == []
      modifies this`ok, this`phases, this`errors, this`failed, this`tried, this`migrations
      ensures good ==> At(3) && tried == before + MigrateSteps(job, |job.metadata|) && migrations == Migrated(job, |job.metadata|)
      ensures !good ==> RefusedIn(before, MigrateSteps(job, |job.metadata|))
                        && |failed| == 1 && migrations == MigratedUpTo(job, failed[0])
    {
      hide RefusedIn, MigrateOne, At;
      assert before + [] == before;
      for i := 0 to |job.metadata|
        invariant At(3) && tried == before + MigrateSteps(job, i) && migrations == Migrated(job, i)
      {
        NoFile(before + MigrateSteps(job, i), job, i);
        assert before + MigrateSteps(job, i) + MigrateOne(job, i) == before + (MigrateSteps(job, i) + MigrateOne(job, i));
        if job.metadata[i] {
          good := MigrateFile(i, before + MigrateSteps(job, i));
          if !good {
            WhileMigrating(before, i);
            return;
          }
        }
      }
      good := true;
    }

    /** The loop that encodes the files, reads them again and checks them; every file comes out, in order. */
    method EncodeTree(ghost before: seq<Step>) returns (good: bool, entries: seq<nat>)
      requires At(4) && tried == before
      modifies this`ok, this`phases, this`errors, this`failed, this`tried
      ensures good ==> At(4) && tried == before + EncodeSteps(job, |job.metadata|)
                       && entries == seq(|job.metadata|, i => i)
      ensures !good ==> RefusedIn(before, EncodeSteps(job, |job.metadata|)) && |failed| == 1 && failed[0].phase.Preflight?
    {
      hide RefusedIn, At;
      assert before + [] == before;
      entries := [];
      for i := 0 to |job.metadata|
        invariant At(4) && tried == before + EncodeSteps(job, i) && entries == seq(i, j => j)
      {
        Regroup(before, EncodeSteps(job, i), EncodeOne(job, i));
        good := TryAll(Preflight, EncodeOne(job, i), before + EncodeSteps(job, i));
        if !good {
          WhileEncoding(before, i);
          return;
        }
        entries := entries + [i];
      }
      good := true;
    }

    // ---- the phases the routes share

    /** Decoding, then validation. */
    method Read(decoding: seq<Step>, validation: Step, ghost before: seq<Step>) returns (good: bool)
      requires At(0) && tried == before && OfPhase(decoding, Decode) && OfPhase([validation], Validate)
      modifies this`ok, this`phases, this`errors, this`failed, this`tried
      ensures good ==> At(2) && tried == before + (decoding + [validation])
      ensures !good ==> RefusedIn(before, decoding + [validation]) && |failed| == 1 && !failed[0].phase.Migrate?
    {
      hide RefusedIn;
      Regroup(before, decoding, [validation]);
      good := TryAll(Decode, decoding, before);
      if !good {
        InFront(before, decoding, [validation]);
        return;
      }
      Pass(Decode, 0);
      good := TryAll(Validate, [validation], before + decoding);
      if !good {
        Behind(before, decoding, [validation]);
        return;
      }
      Pass(Validate, 1);
    }

    /** Reading alone, where nothing is decoded or validated. */
    method ReadOnly(ghost before: seq<Step>) returns (good: bool)
      requires At(0) && tried == before
      modifies this`ok, this`phases, this`errors, this`failed, this`tried
      ensures good ==> At(2) && tried == before + [Step(Decode, ReadTree)]
      ensures !good ==> RefusedIn(before, [Step(Decode, ReadTree)]) && |failed| == 1
    {
      hide RefusedIn;
      good := TryAll(Decode, [Step(Decode, ReadTree)], before);
      if good {
        Pass(Decode, 0);
        Pass(Validate, 1);
      }
    }

    /** The plan of a route through the migration graph. */
    method PlanMigration(ghost before: seq<Step>) returns (good: bool)
      requires At(2) && tried == before && Planned(job).Graph?
      modifies this`ok, this`phases, this`errors, this`failed, this`tried, this`plan
      ensures good ==> At(3) && tried == before + Planning
      ensures !good ==> RefusedIn(before, Planning) && |failed| == 1 && failed[0].phase.Plan?
    {
      hide RefusedIn;
      good := TryAll(Plan, Planning, before);
      if good {
        plan := Some(Graph);
        Pass(Plan, 2);
      }
    }

    /** The plan of a direct route, which cannot fail and migrates nothing. */
    method PlanDirect(kind: PlanKind)
      requires At(2) && kind == Planned(job)
      modifies this`phases, this`plan
      ensures At(4)
    {
      plan := Some(kind);
      Pass(Plan, 2);
      Pass(Migrate, 3);
    }

    method CompleteMigration()
      requires At(3)
      modifies this`phases
      ensures At(4)
    {
      Pass(Migrate, 3);
    }

    /** The end of every route: the preflight checks, the counts, and the publication. */
    method Finish(source: nat, target: nat, checks: seq<Step>, ghost before: seq<Step>) returns (good: bool)
      requires At(4) && tried == before && OfPhase(checks, Preflight) && (source, target) == Counted(job)
      modifies this`ok, this`phases, this`errors, this`failed, this`tried
      modifies this`preflight, this`publication, this`outputPublished
      ensures good ==> Finished() && tried == before + (checks + Publishing(job))
      ensures !good ==> RefusedIn(before, checks + Publishing(job)) && |failed| == 1 && !failed[0].phase.Migrate?
    {
      hide RefusedIn, Publishing;
      Regroup(before, checks, Publishing(job));
      good := TryAll(Preflight, checks, before);
      if !good {
        InFront(before, checks, Publishing(job));
        return;
      }
      preflight := Some((source, target));
      Pass(Preflight, 4);
      good := PublishUnlessDry(before + checks);
      if !good {
        Behind(before, checks, Publishing(job));
      }
    }

    // ---- the routes

    method ConvertXmlToXml(ghost before: seq<Step>) returns (good: bool)
      requires At(0) && tried == before && migrations == [] && job.source.Xml? && job.target.Xml?
      modifies this
      ensures good ==> Finished() && tried == before + XmlToXml(job)
      ensures good ==> migrations == Migrated(job, |job.metadata|)
      ensures !good ==> RefusedIn(before, XmlToXml(job)) && |failed| == 1
      ensures !good && failed[0].phase.Migrate? ==> migrations == MigratedUpTo(job, failed[0])
    {
      hide At, Finished, RefusedIn, Stopped, MigrateSteps, EncodeSteps, Publishing, Migrated;
      ghost var files, out := MigrateSteps(job, |job.metadata|), EncodeSteps(job, |job.metadata|);
      ghost var end := TargetChecks + Publishing(job);
      Five(before, ReadXml, Planning, files, out, end);
      good := Read(DecodingXml, Step(Validate, ValidateTree), before);
      if !good {
        Within(before, [], ReadXml, Planning + files + out + end);
        return;
      }
      good := PlanMigration(before + ReadXml);
      if !good {
        Within(before, ReadXml, Planning, files + out + end);
        return;
      }
      good := MigrateTree(before + (ReadXml + Planning));
      if !good {
        Within(before, ReadXml + Planning, files, out + end);
        return;
      }
      CompleteMigration();
      var entries;
      good, entries := EncodeTree(before + (ReadXml + Planning + files));
      if !good {
        Within(before, ReadXml + Planning + files, out, end);
        return;
      }
      good := Finish(|job.metadata|, |entries|, TargetChecks, before + (ReadXml + Planning + files + out));
      if !good {
        Behind(before, ReadXml + Planning + files + out, end);
      }
    }

    method ConvertXmlToCf(ghost before: seq<Step>) returns (good: bool)
      requires At(0) && tried == before && job.source.Xml? && job.target.Cf?
      modifies this
      ensures good ==> Finished() && tried == before + XmlToCf(job)
      ensures migrations == old(migrations)
      ensures !good ==> RefusedIn(before, XmlToCf(job)) && |failed| == 1
    {
      hide RefusedIn, At, Finished, Publishing;
      ghost var end := Assembling(job) + Publishing(job);
      Regroup(before, Reading(job), end);
      if job.baseFree {
        good := ReadOnly(before);
      } else {
        good := Read(DecodingXml, Step(Validate, ValidateTree), before);
      }
      if !good {
        InFront(before, Reading(job), end);
        return;
      }
      PlanDirect(Direct(if job.baseFree then XmlToCfBaseFree else XmlToCfWithBase));
      good := Finish(job.sizes.0, job.sizes.1, Assembling(job), before + Reading(job));
      if !good {
        Behind(before, Reading(job), end);
      }
    }

    method ConvertCfToXml(ghost before: seq<Step>) returns (good: bool)
      requires At(0) && tried == before && job.source.Cf? && job.target.Xml?
      modifies this
      ensures good ==> Finished() && tried == before + CfToXml(job)
      ensures migrations == old(migrations)
      ensures !good ==> RefusedIn(before, CfToXml(job)) && |failed| == 1
    {
      hide RefusedIn, At, Finished, Publishing;
      ghost var end := Exporting + Publishing(job);
      Regroup(before, ReadCf, end);
      good := Read([Step(Decode, DecodeCf)], Step(Validate, ValidateImage), before);
      if !good {
        InFront(before, ReadCf, end);
        return;
      }
      PlanDirect(Direct(CfToXmlExport));
      good := Finish(job.sizes.0, job.sizes.1, Exporting, before + ReadCf);
      if !good {
        Behind(before, ReadCf, end);
      }
    }

    method ConvertCfToCf(ghost before: seq<Step>) returns (good: bool)
      requires At(0) && tried == before && job.source.Cf? && job.target.Cf?
      modifies this
      ensures good ==> Finished() && tried == before + CfToCf(job)
      ensures migrations == old(migrations)
      ensures !good ==> RefusedIn(before, CfToCf(job)) && |failed| == 1
    {
      hide RefusedIn, At, Finished, Publishing;
      ghost var same, end := [Step(Plan, SameProfile)], Repacking + Publishing(job);
      Five(before, ReadCf, same, end, [], []);
      good := Read([Step(Decode, DecodeCf)], Step(Validate, ValidateImage), before);
      if !good {
        InFront(before, ReadCf, same);
        InFront(before, ReadCf + same, end);
        return;
      }
      good := TryAll(Plan, [Step(Plan, SameProfile)], before + ReadCf);
      if !good {
        Within(before, ReadCf, same, end);
        return;
      }
      PlanDirect(Repack);
      good := Finish(job.sizes.0, job.sizes.1, Repacking, before + (ReadCf + same));
      if !good {
        Behind(before, ReadCf + same, end);
      }
    }

    /** There is no way from EDT to CF or back: the planning phase fails with nothing decoded or validated. */
    method RefuseRoute(ghost before: seq<Step>)
      requires At(0) && tried == before
      modifies this`ok, this`phases, this`errors, this`failed
      ensures Stopped(0) && failed == [Step(Plan, UnsupportedRoute)]
      ensures StoppedAt(tried, before, [Step(Plan, UnsupportedRoute)], Step(Plan, UnsupportedRoute))
    {
      var words := wording(Step(Plan, UnsupportedRoute));
      Failure(Plan, words.code, words.message, words.path, Step(Plan, UnsupportedRoute));
      assert tried == before + [Step(Plan, UnsupportedRoute)][..0];
    }
  }

  /** Ways of grouping the parts of a route. */
  lemma Five(before: seq<Step>, a: seq<Step>, b: seq<Step>, c: seq<Step>, d: seq<Step>, e: seq<Step>)
    ensures before + [] == before
    ensures before + a + b == before + (a + b)
    ensures before + (a + b) + c == before + (a + b + c)
    ensures before + (a + b + c) + d == before + (a + b + c + d)
    ensures before + (a + b + c + d) + e == before + (a + b + c + d + e)
    ensures [] + a + (b + c + d + e) == a + b + c + d + e
    ensures a + b + (c + d + e) == a + b + c + d + e
    ensures a + b + c + (d + e) == a + b + c + d + e
    ensures a + b + c + d + e + [] == a + b + c + d + e
  {
  }

  lemma NoFile(before: seq<Step>, job: Job, i: nat)
    requires i < |job.metadata|
    ensures !job.metadata[i] ==> before + MigrateOne(job, i) == before
  {
  }

  // ---- the conversion

  /** The routes shown: all but those between EDT and XML or EDT. */
  predicate Shown(job: Job) {
    (job.source.Edt? ==> job.target.Cf?) && (job.target.Edt? ==> job.source.Cf?)
  }

  /** How many phases are completed when `failed` stops a conversion. */
  function CompletedBefore(failed: Step): nat {
    if failed.site.UnsupportedRoute? then 0 else IndexOf(failed.phase)
  }

  /**
   * A conversion succeeds exactly when every fallible step of its route does. Then the first five phases are
   * completed and the last is completed or, in a dry run, skipped, and an output is published exactly outside dry
   * runs. Otherwise the first step that fails is the one error reported; its phase alone is failed, the phases before
   * it are completed -- none at all when the route is unsupported --, those after it pending, and nothing is published.
   */
  method Convert(job: Job, passes: Step -> bool, wording: Step -> Wording) returns (report: ConversionReport)
    requires Shown(job)
    ensures fresh(report) && report.job == job && report.passes == passes && report.wording == wording
    ensures report.ok <==> AllPass(StepsOf(job), passes)
    ensures report.ok ==> report.Finished() && report.tried == StepsOf(job)
    ensures !report.ok ==>
              && |report.failed| == 1
              && report.Stopped(CompletedBefore(report.failed[0]))
              && StoppedAt(report.tried, [], StepsOf(job), report.failed[0])
    ensures report.ok ==>
              report.migrations == if job.source.Xml? && job.target.Xml? then Migrated(job, |job.metadata|) else []
    ensures !report.ok && job.source.Xml? && job.target.Xml? && report.failed[0].phase.Migrate? ==>
              report.migrations == MigratedUpTo(job, report.failed[0])
  {
    hide ConversionReport.At, StoppedAt, XmlToXml, XmlToCf, CfToXml, CfToCf, Succeeds, Migrated;
    report := new ConversionReport(job, passes, wording);
    ghost var opening, route := Opening(job), Route(job);
    var good := report.TryAll(Decode, Opening(job), []);
    assert [] + opening == opening && opening + route == StepsOf(job);
    if !good {
      report.InFront([], opening, route);
      NotAllPass(report.tried, StepsOf(job), report.failed[0], passes);
      return;
    }
    if job.source.Edt? || job.target.Edt? {
      report.RefuseRoute(opening);
      StopsBehind(report.tried, [], opening, route, Step(Plan, UnsupportedRoute));
      NotAllPass(report.tried, StepsOf(job), report.failed[0], passes);
      return;
    }
    if job.source.Xml? && job.target.Xml? {
      good := report.ConvertXmlToXml(opening);
    } else if job.source.Xml? {
      good := report.ConvertXmlToCf(opening);
    } else if job.target.Xml? {
      good := report.ConvertCfToXml(opening);
    } else {
      good := report.ConvertCfToCf(opening);
    }
    if !good {
      report.Behind([], opening, route);
      NotAllPass(report.tried, StepsOf(job), report.failed[0], passes);
    }
  }

  lemma NotAllPass(tried: seq<Step>, steps: seq<Step>, failed: Step, passes: Step -> bool)
    requires StoppedAt(tried, [], steps, failed) && !Succeeds(failed, passes)
    ensures !AllPass(steps, passes)
  {
  }

  /** Without publishing, the steps of a real run are those of the dry run, and the publication comes last. */
  lemma DryRunIsPrefix(job: Job)
    requires Shown(job) && !job.dryRun && !job.source.Edt? && !job.target.Edt?
    ensures StepsOf(job) == StepsOf(job.(dryRun := true)) + [Step(Encode, Publish)]
  {
    hide MigrateSteps, EncodeSteps, Opening, Assembling, Reading;
    var dry := job.(dryRun := true);
    SameFiles(job, |job.metadata|);
    assert Opening(dry) == Opening(job) && Assembling(dry) == Assembling(job) && Reading(dry) == Reading(job) by {
      SameRequest(job);
    }
  }

  lemma SameRequest(job: Job)
    ensures var dry := job.(dryRun := true);
            Opening(dry) == Opening(job) && Assembling(dry) == Assembling(job) && Reading(dry) == Reading(job)
  {
  }

  lemma {:induction false} SameFiles(job: Job, n: nat)
    requires n <= |job.metadata|
    ensures var dry := job.(dryRun := true);
            MigrateSteps(dry, n) == MigrateSteps(job, n) && EncodeSteps(dry, n) == EncodeSteps(job, n)
    decreases n
  {
    if n > 0 {
      SameFiles(job, n - 1);
    }
  }

  /**
   * A dry run foretells a real one: on the same inputs it succeeds exactly when the real run gets as far as publishing,
   * and otherwise both stop at the same step after the same ones.
   */
  lemma DryRunForetells(job: Job, passes: Step -> bool, tried: seq<Step>, failed: Step)
    requires Shown(job) && !job.dryRun && !job.source.Edt? && !job.target.Edt?
    ensures var dry, publish := StepsOf(job.(dryRun := true)), Step(Encode, Publish);
            && (AllPass(StepsOf(job), passes) <==> AllPass(dry, passes) && passes(publish))
            && (StoppedAt(tried, [], StepsOf(job), failed)
                <==> StoppedAt(tried, [], dry, failed) || (tried == dry && failed == publish))
  {
    hide StepsOf;
    DryRunIsPrefix(job);
    var all, dry, publish := StepsOf(job), StepsOf(job.(dryRun := true)), Step(Encode, Publish);
    assert all[..|dry|] == dry && all[|dry|] == publish;
    assert forall k :: 0 <= k < |dry| ==> all[k] == dry[k];
    assert forall n :: 0 <= n <= |dry| ==> all[..n] == dry[..n];
    assert forall n :: 0 <= n <= |all| ==> [] + all[..n] == all[..n];
    if StoppedAt(tried, [], dry, failed) {
      StopsInFront(tried, [], dry, [publish], failed);
    }
    if tried == dry && failed == publish {
      assert tried == [] + all[..|dry|] && all[|dry|] == failed;
    }
  }

  /** In a ledger with a failure exactly one phase is failed, and every later one is pending. */
  lemma OneFailure(k: nat, failed: Phase)
    requires k <= IndexOf(failed)
    ensures var l := Marked(k)[IndexOf(failed) := (failed, Failed)];
            && Complete(l)
            && (forall i :: 0 <= i < 6 ==> (l[i].1.Failed? <==> l[i].0 == failed))
            && (forall i :: IndexOf(failed) < i < 6 ==> l[i].1.Pending?)
            && (forall i :: 0 <= i < IndexOf(failed) ==> l[i].1 == if i < k then Completed else Pending)
  {
    forall i | 0 <= i < 6 ensures PHASES[i] == failed <==> i == IndexOf(failed) {
      assert IndexOf(PHASES[i]) == i;
    }
  }
}
