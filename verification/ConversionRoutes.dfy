/** The routes of `src/conversion.rs` place by place: which steps a job has, and in what order they come. */
module ConversionRoutes {
  import opened Prelude
  import opened ConversionLedger

  // ---- where each step belongs

  predicate XmlIn(job: Job) { job.source.Xml? && !job.target.Edt? }
  predicate XmlTree(job: Job) { job.source.Xml? && job.target.Xml? }
  predicate IntoCf(job: Job) { job.source.Xml? && job.target.Cf? }
  predicate OutOfCf(job: Job) { job.source.Cf? && job.target.Xml? }
  predicate CfTwice(job: Job) { job.source.Cf? && job.target.Cf? }
  predicate Supported(job: Job) { !job.source.Edt? && !job.target.Edt? }

  /** The phase of a place. */
  function PhaseOf(site: Site): Phase {
    match site
    case ValidateTree => Validate
    case ValidateImage => Validate
    case MigrationGraph => Plan
    case MigrationRoute => Plan
    case SameProfile => Plan
    case UnsupportedRoute => Plan
    case CanonicalModel(_) => Migrate
    case Execute(_) => Migrate
    case Rebuild(_) => Migrate
    case Publish => Encode
    case _ => if Rank(site) < 20 then Decode else Preflight
  }

  /** The order of the places within a phase. */
  function Rank(site: Site): nat {
    match site
    case ArtifactPaths => 0
    case ReportPath => 1
    case LoadProfiles => 2
    case SourceId => 3
    case TargetId => 4
    case SourceProfile => 5
    case TargetProfile => 6
    case SourceCoordinates => 7
    case TargetCoordinates => 8
    case ReadTree => 9
    case Dialects => 10
    case DecodeTree => 11
    case DecodeCf => 12
    case ValidateTree => 0
    case ValidateImage => 0
    case MigrationGraph => 0
    case MigrationRoute => 1
    case SameProfile => 0
    case UnsupportedRoute => 0
    case CanonicalModel(_) => 0
    case Execute(_) => 1
    case Rebuild(_) => 2
    case EncodeEntry(_) => 20
    case RereadEntry(_) => 21
    case EntryDialect(_) => 22
    case TargetEntry(_) => 23
    case TargetTree => 30
    case SourceAdapter => 31
    case BaseFreeCompile => 32
    case BootstrapCompile => 33
    case AssembleCf => 34
    case TargetAdapter => 35
    case Staging => 36
    case ExportImage => 37
    case ExportFailures => 38
    case OpaqueEntries => 39
    case ReadStaging => 40
    case TargetDialects => 41
    case DecodeTarget => 42
    case ValidateTarget => 43
    case WriteCf => 44
    case ValidateCf => 45
    case CountsMatch => 46
    case Destination => 47
    case Publish => 0
  }

  /** The number of the file a place is about. */
  function EntryOf(site: Site): Option<nat> {
    match site
    case CanonicalModel(i) => Some(i)
    case Execute(i) => Some(i)
    case Rebuild(i) => Some(i)
    case EncodeEntry(i) => Some(i)
    case RereadEntry(i) => Some(i)
    case EntryDialect(i) => Some(i)
    case TargetEntry(i) => Some(i)
    case _ => None
  }

  /** The jobs on which the conversion can fail at this place. */
  predicate Occurs(job: Job, site: Site) {
    match site
    case ReportPath => job.hasReport
    case ReadTree => XmlIn(job)
    case Dialects => XmlTree(job) || (IntoCf(job) && !job.baseFree)
    case DecodeTree => XmlTree(job) || (IntoCf(job) && !job.baseFree)
    case ValidateTree => XmlTree(job) || (IntoCf(job) && !job.baseFree)
    case DecodeCf => job.source.Cf? && !job.target.Edt?
    case ValidateImage => job.source.Cf? && !job.target.Edt?
    case MigrationGraph => XmlTree(job)
    case MigrationRoute => XmlTree(job)
    case SameProfile => CfTwice(job)
    case UnsupportedRoute => !Supported(job)
    case CanonicalModel(i) => XmlTree(job) && i < |job.metadata| && job.metadata[i]
    case Execute(i) => XmlTree(job) && i < |job.metadata| && job.metadata[i]
    case Rebuild(i) => XmlTree(job) && i < |job.metadata| && job.metadata[i] && !job.planIsEmpty
    case EncodeEntry(i) => XmlTree(job) && i < |job.metadata| && job.metadata[i]
    case RereadEntry(i) => XmlTree(job) && i < |job.metadata| && job.metadata[i]
    case EntryDialect(i) => XmlTree(job) && i < |job.metadata| && job.metadata[i]
    case TargetEntry(i) => XmlTree(job) && i < |job.metadata|
    case TargetTree => XmlTree(job)
    case SourceAdapter => IntoCf(job) && job.baseFree
    case BaseFreeCompile => IntoCf(job) && job.baseFree
    case BootstrapCompile => IntoCf(job) && !job.baseFree
    case AssembleCf => IntoCf(job)
    case CountsMatch => IntoCf(job)
    case WriteCf => job.target.Cf? && Supported(job)
    case ValidateCf => job.target.Cf? && Supported(job)
    case TargetAdapter => OutOfCf(job)
    case Staging => OutOfCf(job)
    case ExportImage => OutOfCf(job)
    case ExportFailures => OutOfCf(job)
    case OpaqueEntries => OutOfCf(job)
    case ReadStaging => OutOfCf(job)
    case TargetDialects => OutOfCf(job)
    case DecodeTarget => OutOfCf(job)
    case ValidateTarget => OutOfCf(job)
    case Destination => Supported(job)
    case Publish => Supported(job) && !job.dryRun
    case _ => true
  }

  /** Phase by phase; within a phase what concerns single files first, file by file, and by place. */
  predicate Before(a: Step, b: Step) {
    var p, q := IndexOf(a.phase), IndexOf(b.phase);
    p < q || (p == q &&
      match (EntryOf(a.site), EntryOf(b.site))
      case (Some(i), Some(j)) => i < j || (i == j && Rank(a.site) < Rank(b.site))
      case (Some(_), None) => true
      case (None, Some(_)) => false
      case (None, None) => Rank(a.site) < Rank(b.site))
  }

  predicate InOrder(steps: seq<Step>) {
    forall i, j :: 0 <= i < j < |steps| ==> Before(steps[i], steps[j])
  }

  predicate AllBefore(a: seq<Step>, b: seq<Step>) {
    forall i, j :: 0 <= i < |a| && 0 <= j < |b| ==> Before(a[i], b[j])
  }

  /** The step at a place, where the job has it. */
  predicate Belongs(job: Job, step: Step) {
    Occurs(job, step.site) && step.phase == PhaseOf(step.site)
  }

  // ---- joining stretches

  lemma JoinInOrder(a: seq<Step>, b: seq<Step>)
    requires InOrder(a) && InOrder(b) && AllBefore(a, b)
    ensures InOrder(a + b)
  {
    hide Before;
    var all := a + b;
    forall i, j | 0 <= i < j < |all| ensures Before(all[i], all[j]) {
      if j < |a| {
        assert Before(a[i], a[j]);
      } else if i < |a| {
        assert Before(a[i], b[j - |a|]);
      } else {
        assert Before(b[i - |a|], b[j - |a|]);
      }
    }
  }

  /** All steps of `steps` are of phases from `lo` to `hi`. */
  predicate Between(steps: seq<Step>, lo: nat, hi: nat) {
    forall i :: 0 <= i < |steps| ==> lo <= IndexOf(steps[i].phase) <= hi
  }

  lemma JoinPhases(a: seq<Step>, b: seq<Step>, lo: nat, mid: nat, hi: nat)
    requires InOrder(a) && InOrder(b) && Between(a, lo, mid) && Between(b, mid + 1, hi) && lo <= mid < hi
    ensures InOrder(a + b) && Between(a + b, lo, hi)
  {
    JoinInOrder(a, b);
  }

  // ---- the loops over the files

  /** Steps of phase `phase`, each about a file from `lo` up to `hi`. */
  predicate OfFiles(steps: seq<Step>, phase: Phase, lo: nat, hi: nat) {
    forall i :: 0 <= i < |steps| ==>
      steps[i].phase == phase && EntryOf(steps[i].site).Some? && lo <= EntryOf(steps[i].site).value < hi
  }

  lemma JoinFiles(a: seq<Step>, b: seq<Step>, phase: Phase, n: nat)
    requires InOrder(a) && InOrder(b) && OfFiles(a, phase, 0, n) && OfFiles(b, phase, n, n + 1)
    ensures InOrder(a + b) && OfFiles(a + b, phase, 0, n + 1)
  {
    assert AllBefore(a, b);
    JoinInOrder(a, b);
  }

  /** A step of the migration loop. */
  predicate Migrates(job: Job, s: Step, lo: nat, hi: nat) {
    && s.phase.Migrate? && EntryOf(s.site).Some? && lo <= EntryOf(s.site).value < hi <= |job.metadata|
    && job.metadata[EntryOf(s.site).value]
    && (s.site.CanonicalModel? || s.site.Execute? || (s.site.Rebuild? && !job.planIsEmpty))
  }

  lemma OneInOrder(job: Job, i: nat)
    requires i < |job.metadata|
    ensures InOrder(MigrateOne(job, i))
  {
  }

  lemma OneMigration(job: Job, i: nat)
    requires i < |job.metadata|
    ensures InOrder(MigrateOne(job, i)) && OfFiles(MigrateOne(job, i), Migrate, i, i + 1)
    ensures forall s :: s in MigrateOne(job, i) <==> Migrates(job, s, i, i + 1)
  {
    hide InOrder, Rank;
    OneInOrder(job, i);
    forall s | Migrates(job, s, i, i + 1) ensures s in MigrateOne(job, i) {
      assert s == Step(Migrate, CanonicalModel(i)) || s == Step(Migrate, Execute(i)) || s == Step(Migrate, Rebuild(i));
    }
  }

  lemma {:induction false} MigrationIs(job: Job, n: nat)
    requires n <= |job.metadata|
    ensures InOrder(MigrateSteps(job, n)) && OfFiles(MigrateSteps(job, n), Migrate, 0, n)
    ensures forall s :: s in MigrateSteps(job, n) <==> Migrates(job, s, 0, n)
  {
    hide MigrateOne, InOrder, OfFiles;
    if n > 0 {
      MigrationIs(job, n - 1);
      OneMigration(job, n - 1);
      JoinFiles(MigrateSteps(job, n - 1), MigrateOne(job, n - 1), Migrate, n - 1);
    } else {
      NoSteps(Migrate);
    }
  }

  lemma NoSteps(phase: Phase)
    ensures InOrder([]) && OfFiles([], phase, 0, 0)
  {
  }

  /** A step of the encoding loop. */
  predicate Encodes(job: Job, s: Step, lo: nat, hi: nat) {
    && s.phase.Preflight? && EntryOf(s.site).Some? && lo <= EntryOf(s.site).value < hi <= |job.metadata|
    && (s.site.TargetEntry?
        || (job.metadata[EntryOf(s.site).value]
            && (s.site.EncodeEntry? || s.site.RereadEntry? || s.site.EntryDialect?)))
  }

  lemma OneEncoding(job: Job, i: nat)
    requires i < |job.metadata|
    ensures InOrder(EncodeOne(job, i)) && OfFiles(EncodeOne(job, i), Preflight, i, i + 1)
    ensures forall s :: s in EncodeOne(job, i) <==> Encodes(job, s, i, i + 1)
  {
    hide InOrder, Rank;
    EncodingInOrder(job, i);
    forall s | Encodes(job, s, i, i + 1) ensures s in EncodeOne(job, i) {
      assert s == Step(Preflight, TargetEntry(i)) || s == Step(Preflight, EncodeEntry(i))
          || s == Step(Preflight, RereadEntry(i)) || s == Step(Preflight, EntryDialect(i));
    }
  }

  lemma EncodingInOrder(job: Job, i: nat)
    requires i < |job.metadata|
    ensures InOrder(EncodeOne(job, i))
  {
  }

  lemma {:induction false} EncodingIs(job: Job, n: nat)
    requires n <= |job.metadata|
    ensures InOrder(EncodeSteps(job, n)) && OfFiles(EncodeSteps(job, n), Preflight, 0, n)
    ensures forall s :: s in EncodeSteps(job, n) <==> Encodes(job, s, 0, n)
  {
    hide EncodeOne, InOrder, OfFiles;
    if n > 0 {
      EncodingIs(job, n - 1);
      OneEncoding(job, n - 1);
      JoinFiles(EncodeSteps(job, n - 1), EncodeOne(job, n - 1), Preflight, n - 1);
    } else {
      NoSteps(Preflight);
    }
  }

  // ---- the fixed stretches

  /** Steps of one phase about no single file, by rising rank. */
  predicate Ranked(steps: seq<Step>, phase: Phase) {
    && (forall i :: 0 <= i < |steps| ==> steps[i].phase == phase && EntryOf(steps[i].site).None?)
    && (forall i, j :: 0 <= i < j < |steps| ==> Rank(steps[i].site) < Rank(steps[j].site))
  }

  lemma RankedInOrder(steps: seq<Step>, phase: Phase)
    requires Ranked(steps, phase)
    ensures InOrder(steps) && Between(steps, IndexOf(phase), IndexOf(phase))
  {
    hide Rank;
  }

  lemma {:induction false} Rises(ranks: seq<nat>, i: nat, j: nat)
    requires i < j < |ranks| && forall k :: 0 <= k < |ranks| - 1 ==> ranks[k] < ranks[k + 1]
    ensures ranks[i] < ranks[j]
  {
    if i + 1 < j {
      Rises(ranks, i, j - 1);
    }
    assert ranks[j - 1] < ranks[j - 1 + 1];
  }

  lemma RanksRise(steps: seq<Step>, phase: Phase, ranks: seq<nat>)
    requires |ranks| == |steps| && forall k :: 0 <= k < |ranks| - 1 ==> ranks[k] < ranks[k + 1]
    requires forall i :: 0 <= i < |steps| ==>
               steps[i].phase == phase && EntryOf(steps[i].site).None? && Rank(steps[i].site) == ranks[i]
    ensures Ranked(steps, phase)
  {
    hide Rank, EntryOf;
    forall i, j | 0 <= i < j < |steps| ensures Rank(steps[i].site) < Rank(steps[j].site) {
      Rises(ranks, i, j);
    }
  }

  lemma RankedJoin(a: seq<Step>, b: seq<Step>, phase: Phase, n: nat)
    requires Ranked(a, phase) && Ranked(b, phase)
    requires forall i :: 0 <= i < |a| ==> Rank(a[i].site) < n
    requires forall i :: 0 <= i < |b| ==> Rank(b[i].site) >= n
    ensures Ranked(a + b, phase)
  {
    hide Rank, EntryOf;
    var all := a + b;
    forall i, j | 0 <= i < j < |all| ensures Rank(all[i].site) < Rank(all[j].site) {
      assert i < |a| ==> all[i] == a[i];
      assert i >= |a| ==> all[i] == b[i - |a|];
      assert j < |a| ==> all[j] == a[j];
      assert j >= |a| ==> all[j] == b[j - |a|];
    }
  }

  predicate IsOpening(job: Job, site: Site) {
    site.ArtifactPaths? || (site.ReportPath? && job.hasReport) || site.LoadProfiles? || site.SourceId? || site.TargetId?
    || site.SourceProfile? || site.TargetProfile? || site.SourceCoordinates? || site.TargetCoordinates?
  }

  lemma OpeningIs(job: Job)
    ensures Ranked(Opening(job), Decode)
    ensures forall i :: 0 <= i < |Opening(job)| ==> Rank(Opening(job)[i].site) < 9
    ensures forall s :: s in Opening(job) <==> s.phase.Decode? && IsOpening(job, s.site)
  {
  }

  // ---- the six stretches of a job

  function Decoding(job: Job): seq<Step> {
    if XmlTree(job) || (IntoCf(job) && !job.baseFree) then DecodingXml
    else if IntoCf(job) then [Step(Decode, ReadTree)]
    else if Supported(job) then [Step(Decode, DecodeCf)]
    else []
  }

  function Validating(job: Job): seq<Step> {
    if XmlTree(job) || (IntoCf(job) && !job.baseFree) then [Step(Validate, ValidateTree)]
    else if IntoCf(job) || !Supported(job) then []
    else [Step(Validate, ValidateImage)]
  }

  function PlanningOf(job: Job): seq<Step> {
    if XmlTree(job) then Planning
    else if CfTwice(job) then [Step(Plan, SameProfile)]
    else if Supported(job) then []
    else [Step(Plan, UnsupportedRoute)]
  }

  function Migrating(job: Job): seq<Step> {
    if XmlTree(job) then MigrateSteps(job, |job.metadata|) else []
  }

  function PerFile(job: Job): seq<Step> {
    if XmlTree(job) then EncodeSteps(job, |job.metadata|) else []
  }

  function Checking(job: Job): seq<Step> {
    if XmlTree(job) then TargetChecks
    else if IntoCf(job) then Assembling(job)
    else if OutOfCf(job) then Exporting
    else if CfTwice(job) then Repacking
    else []
  }

  function Writing(job: Job): seq<Step> {
    if Supported(job) then Publishing(job) else []
  }

  lemma Nested(o: seq<Step>, d: seq<Step>, v: seq<Step>, p: seq<Step>, m: seq<Step>, e: seq<Step>, t: seq<Step>, w: seq<Step>)
    ensures o + (d + v + p + m + e + (t + w)) == (o + d) + (v + (p + (m + ((e + t) + w))))
  {
  }

  lemma Unfilled(d: seq<Step>, v: seq<Step>, p: seq<Step>, t: seq<Step>, w: seq<Step>)
    ensures d + v + p + [] + [] + (t + w) == d + v + p + (t + w)
    ensures d + v + [] + [] + [] + (t + w) == d + v + (t + w)
    ensures d + [] + [] + [] + [] + (t + w) == d + (t + w)
    ensures [] + [] + p + [] + [] + ([] + []) == p
  {
  }

  lemma RouteIs(job: Job)
    requires Shown(job)
    ensures Route(job) == Decoding(job) + Validating(job) + PlanningOf(job) + Migrating(job) + PerFile(job)
                          + (Checking(job) + Writing(job))
  {
    hide MigrateSteps, EncodeSteps, Assembling, Publishing;
    Unfilled(Decoding(job), Validating(job), PlanningOf(job), Checking(job), Writing(job));
  }

  /** A job, phase by phase. */
  lemma StepsAre(job: Job)
    requires Shown(job)
    ensures StepsOf(job)
         == (Opening(job) + Decoding(job))
            + (Validating(job) + (PlanningOf(job) + (Migrating(job) + ((PerFile(job) + Checking(job)) + Writing(job)))))
  {
    hide Opening, Route, Decoding, Validating, PlanningOf, Migrating, PerFile, Checking, Writing;
    RouteIs(job);
    Nested(Opening(job), Decoding(job), Validating(job), PlanningOf(job), Migrating(job), PerFile(job), Checking(job),
           Writing(job));
  }

  lemma DecodingIs(job: Job)
    requires Shown(job)
    ensures Ranked(Decoding(job), Decode) && forall i :: 0 <= i < |Decoding(job)| ==> Rank(Decoding(job)[i].site) >= 9
    ensures forall s :: s in Decoding(job) <==>
              s.phase.Decode? && Occurs(job, s.site)
              && (s.site.ReadTree? || s.site.Dialects? || s.site.DecodeTree? || s.site.DecodeCf?)
  {
  }

  lemma ValidatingIs(job: Job)
    requires Shown(job)
    ensures Ranked(Validating(job), Validate)
    ensures forall s :: s in Validating(job) <==>
              s.phase.Validate? && Occurs(job, s.site) && (s.site.ValidateTree? || s.site.ValidateImage?)
  {
  }

  lemma PlanningIs(job: Job)
    requires Shown(job)
    ensures Ranked(PlanningOf(job), Plan)
    ensures forall s :: s in PlanningOf(job) <==>
              s.phase.Plan? && Occurs(job, s.site)
              && (s.site.MigrationGraph? || s.site.MigrationRoute? || s.site.SameProfile? || s.site.UnsupportedRoute?)
  {
  }

  predicate IsCheck(site: Site) {
    site.TargetTree? || site.SourceAdapter? || site.BaseFreeCompile? || site.BootstrapCompile? || site.AssembleCf?
    || site.WriteCf? || site.ValidateCf? || site.CountsMatch? || site.TargetAdapter? || site.Staging? || site.ExportImage?
    || site.ExportFailures? || site.OpaqueEntries? || site.ReadStaging? || site.TargetDialects? || site.DecodeTarget?
    || site.ValidateTarget? || site.Destination?
  }

  /** The checks of a job are those that occur in it, by rank. */
  ghost predicate ChecksAre(job: Job, steps: seq<Step>) {
    && Ranked(steps, Preflight)
    && forall s :: s in steps <==> s.phase.Preflight? && Occurs(job, s.site) && IsCheck(s.site)
  }

  lemma ListedChecks(job: Job, steps: seq<Step>, listed: Site -> bool)
    requires Ranked(steps, Preflight)
    requires forall s :: s in steps <==> s.phase.Preflight? && listed(s.site)
    requires forall site :: listed(site) <==> Occurs(job, site) && IsCheck(site)
    ensures ChecksAre(job, steps)
  {
    hide Occurs, IsCheck, Ranked;
  }

  predicate IsTreeCheck(site: Site) {
    site.TargetTree? || site.Destination?
  }

  lemma TreeListed()
    ensures forall s :: s in TargetChecks <==> s.phase.Preflight? && IsTreeCheck(s.site)
  {
  }

  lemma TreeRanked()
    ensures Ranked(TargetChecks, Preflight)
  {
  }

  lemma TreeOccurs(job: Job, site: Site)
    requires XmlTree(job)
    ensures IsTreeCheck(site) <==> Occurs(job, site) && IsCheck(site)
  {
  }

  lemma TreeChecks(job: Job)
    requires XmlTree(job)
    ensures ChecksAre(job, TargetChecks)
  {
    hide ChecksAre, Ranked, Occurs, IsCheck, IsTreeCheck;
    TreeListed();
    TreeRanked();
    forall site ensures IsTreeCheck(site) <==> Occurs(job, site) && IsCheck(site) {
      TreeOccurs(job, site);
    }
    ListedChecks(job, TargetChecks, (site: Site) => IsTreeCheck(site));
  }

  predicate IsAssemblyCheck(job: Job, site: Site) {
    (site.SourceAdapter? && job.baseFree) || (site.BaseFreeCompile? && job.baseFree) || (site.BootstrapCompile? && !job.baseFree)
    || site.AssembleCf? || site.WriteCf? || site.ValidateCf? || site.CountsMatch? || site.Destination?
  }

  lemma AssemblyListed(job: Job)
    ensures forall s :: s in Assembling(job) <==> s.phase.Preflight? && IsAssemblyCheck(job, s.site)
  {
  }

  lemma AssemblyRanked(job: Job)
    ensures Ranked(Assembling(job), Preflight)
  {
    hide Ranked;
    RanksRise(Assembling(job), Preflight, if job.baseFree then [31, 32, 34, 44, 45, 46, 47] else [33, 34, 44, 45, 46, 47]);
  }

  lemma AssemblyOccurs(job: Job, site: Site)
    requires IntoCf(job)
    ensures IsAssemblyCheck(job, site) <==> Occurs(job, site) && IsCheck(site)
  {
  }

  lemma AssemblyChecks(job: Job)
    requires IntoCf(job)
    ensures ChecksAre(job, Assembling(job))
  {
    hide ChecksAre, Ranked, Occurs, IsCheck, IsAssemblyCheck, Assembling;
    AssemblyListed(job);
    AssemblyRanked(job);
    forall site ensures IsAssemblyCheck(job, site) <==> Occurs(job, site) && IsCheck(site) {
      AssemblyOccurs(job, site);
    }
    ListedChecks(job, Assembling(job), (site: Site) => IsAssemblyCheck(job, site));
  }

  predicate IsExportCheck(site: Site) {
    site.TargetAdapter? || site.Staging? || site.ExportImage? || site.ExportFailures? || site.OpaqueEntries?
    || site.ReadStaging? || site.TargetDialects? || site.DecodeTarget? || site.ValidateTarget? || site.Destination?
  }

  lemma ExportListed()
    ensures forall s :: s in Exporting <==> s.phase.Preflight? && IsExportCheck(s.site)
  {
  }

  lemma EarlyExportRanks()
    ensures forall i :: 0 <= i < 5 ==> Rank(Exporting[i].site) == 35 + i
  {
  }

  lemma LateExportRanks()
    ensures forall i :: 5 <= i < 9 ==> Rank(Exporting[i].site) == 35 + i
    ensures Rank(Exporting[9].site) == 47
  {
  }

  lemma ExportIsFixed()
    ensures forall i :: 0 <= i < 10 ==> Exporting[i].phase == Preflight && EntryOf(Exporting[i].site).None?
  {
  }

  lemma ExportRanked()
    ensures Ranked(Exporting, Preflight)
  {
    hide Ranked, Rank, EntryOf;
    EarlyExportRanks();
    LateExportRanks();
    ExportIsFixed();
    RanksRise(Exporting, Preflight, seq(10, i requires 0 <= i < 10 => if i < 9 then 35 + i else 47));
  }

  lemma ExportOccurs(job: Job, site: Site)
    requires OutOfCf(job)
    ensures IsExportCheck(site) <==> Occurs(job, site) && IsCheck(site)
  {
  }

  lemma ExportChecks(job: Job)
    requires OutOfCf(job)
    ensures ChecksAre(job, Exporting)
  {
    hide ChecksAre, Ranked, Occurs, IsCheck, IsExportCheck;
    ExportListed();
    ExportRanked();
    forall site ensures IsExportCheck(site) <==> Occurs(job, site) && IsCheck(site) {
      ExportOccurs(job, site);
    }
    ListedChecks(job, Exporting, (site: Site) => IsExportCheck(site));
  }

  predicate IsRepackCheck(site: Site) {
    site.WriteCf? || site.ValidateCf? || site.Destination?
  }

  lemma RepackListed()
    ensures forall s :: s in Repacking <==> s.phase.Preflight? && IsRepackCheck(s.site)
  {
  }

  lemma RepackRanked()
    ensures Ranked(Repacking, Preflight)
  {
  }

  lemma RepackOccurs(job: Job, site: Site)
    requires CfTwice(job)
    ensures IsRepackCheck(site) <==> Occurs(job, site) && IsCheck(site)
  {
  }

  lemma RepackChecks(job: Job)
    requires CfTwice(job)
    ensures ChecksAre(job, Repacking)
  {
    hide ChecksAre, Ranked, Occurs, IsCheck, IsRepackCheck;
    RepackListed();
    RepackRanked();
    forall site ensures IsRepackCheck(site) <==> Occurs(job, site) && IsCheck(site) {
      RepackOccurs(job, site);
    }
    ListedChecks(job, Repacking, (site: Site) => IsRepackCheck(site));
  }

  lemma NoChecks(job: Job)
    requires Shown(job) && !Supported(job)
    ensures ChecksAre(job, [])
  {
  }

  lemma CheckingIs(job: Job)
    requires Shown(job)
    ensures ChecksAre(job, Checking(job))
  {
    hide ChecksAre, Assembling;
    if XmlTree(job) {
      TreeChecks(job);
    } else if IntoCf(job) {
      AssemblyChecks(job);
    } else if OutOfCf(job) {
      ExportChecks(job);
    } else if CfTwice(job) {
      RepackChecks(job);
    } else {
      NoChecks(job);
    }
  }

  lemma WritingIs(job: Job)
    requires Shown(job)
    ensures Ranked(Writing(job), Encode)
    ensures forall s :: s in Writing(job) <==> s.phase.Encode? && Occurs(job, s.site) && s.site.Publish?
  {
  }

  // ---- the job as a whole

  /** Within a phase, what is about single files comes first. */
  lemma FilesFirst(a: seq<Step>, b: seq<Step>, phase: Phase, n: nat)
    requires InOrder(a) && OfFiles(a, phase, 0, n) && Ranked(b, phase)
    ensures InOrder(a + b) && Between(a + b, IndexOf(phase), IndexOf(phase))
  {
    hide Rank;
    RankedInOrder(b, phase);
    assert AllBefore(a, b);
    JoinInOrder(a, b);
  }

  lemma FilesBeforeChecks(job: Job)
    requires Shown(job)
    ensures InOrder(PerFile(job) + Checking(job)) && Between(PerFile(job) + Checking(job), 4, 4)
  {
    hide Rank, Occurs, IsCheck, EncodeSteps, InOrder, Between, Ranked, OfFiles, Checking;
    CheckingIs(job);
    if XmlTree(job) {
      EncodingIs(job, |job.metadata|);
      FilesFirst(PerFile(job), Checking(job), Preflight, |job.metadata|);
    } else {
      RankedInOrder(Checking(job), Preflight);
      assert PerFile(job) + Checking(job) == Checking(job);
    }
  }

  lemma MigratingInOrder(job: Job)
    ensures InOrder(Migrating(job)) && Between(Migrating(job), 3, 3)
  {
    hide InOrder;
    MigrationIs(job, |job.metadata|);
    NoSteps(Migrate);
  }

  lemma JobInOrder(job: Job)
    requires Shown(job)
    ensures InOrder(StepsOf(job))
  {
    hide InOrder, Between, Ranked, StepsOf, Opening, Decoding, Validating, PlanningOf, Migrating, PerFile, Checking, Writing;
    hide Occurs, IsOpening, Rank;
    StepsAre(job);
    OpeningIs(job);
    DecodingIs(job);
    ValidatingIs(job);
    PlanningIs(job);
    WritingIs(job);
    RankedJoin(Opening(job), Decoding(job), Decode, 9);
    RankedInOrder(Opening(job) + Decoding(job), Decode);
    RankedInOrder(Validating(job), Validate);
    RankedInOrder(PlanningOf(job), Plan);
    RankedInOrder(Writing(job), Encode);
    MigratingInOrder(job);
    FilesBeforeChecks(job);
    JoinPhases(PerFile(job) + Checking(job), Writing(job), 4, 4, 5);
    JoinPhases(Migrating(job), PerFile(job) + Checking(job) + Writing(job), 3, 3, 5);
    JoinPhases(PlanningOf(job), Migrating(job) + (PerFile(job) + Checking(job) + Writing(job)), 2, 2, 5);
    JoinPhases(Validating(job), PlanningOf(job) + (Migrating(job) + (PerFile(job) + Checking(job) + Writing(job))), 1, 1, 5);
    JoinPhases(Opening(job) + Decoding(job),
               Validating(job) + (PlanningOf(job) + (Migrating(job) + (PerFile(job) + Checking(job) + Writing(job)))), 0, 0, 5);
  }

  // ---- which steps there are

  lemma DecodePhaseIs(job: Job, site: Site)
    ensures PhaseOf(site).Decode? && Occurs(job, site) <==>
              IsOpening(job, site)
              || (Occurs(job, site) && (site.ReadTree? || site.Dialects? || site.DecodeTree? || site.DecodeCf?))
  {
  }

  lemma PhasesAre(site: Site)
    ensures PhaseOf(site).Validate? <==> site.ValidateTree? || site.ValidateImage?
    ensures PhaseOf(site).Plan? <==>
              site.MigrationGraph? || site.MigrationRoute? || site.SameProfile? || site.UnsupportedRoute?
    ensures PhaseOf(site).Encode? <==> site.Publish?
  {
  }

  lemma MigrationOccurs(job: Job, step: Step)
    requires XmlTree(job)
    ensures Migrates(job, step, 0, |job.metadata|) <==> step.phase.Migrate? && Belongs(job, step)
  {
  }

  lemma EncodingOccurs(job: Job, step: Step)
    requires XmlTree(job)
    ensures step.phase.Preflight? && Belongs(job, step)
       <==> Encodes(job, step, 0, |job.metadata|) || (step.phase.Preflight? && Occurs(job, step.site) && IsCheck(step.site))
  {
  }

  lemma OtherOccurs(job: Job, step: Step)
    requires Shown(job) && !XmlTree(job)
    ensures !(step.phase.Migrate? && Belongs(job, step))
    ensures step.phase.Preflight? && Belongs(job, step)
       <==> step.phase.Preflight? && Occurs(job, step.site) && IsCheck(step.site)
  {
  }

  /**
   * A job has exactly the steps that belong to it, in the one order of places: so phases never fall back, no step comes
   * twice, and nothing is left out.
   */
  lemma JobIs(job: Job, step: Step)
    requires Shown(job)
    ensures InOrder(StepsOf(job))
    ensures step in StepsOf(job) <==> Belongs(job, step)
  {
    hide InOrder, Ranked, StepsOf, Opening, Decoding, Validating, PlanningOf, Checking, Writing, MigrateSteps, EncodeSteps;
    hide Occurs, IsOpening, Rank, Migrates, Encodes, IsCheck, PhaseOf;
    JobInOrder(job);
    StepsAre(job);
    OpeningIs(job);
    DecodingIs(job);
    ValidatingIs(job);
    PlanningIs(job);
    MigrationIs(job, |job.metadata|);
    EncodingIs(job, |job.metadata|);
    CheckingIs(job);
    WritingIs(job);
    DecodePhaseIs(job, step.site);
    PhasesAre(step.site);
    if XmlTree(job) {
      MigrationOccurs(job, step);
      EncodingOccurs(job, step);
    } else {
      OtherOccurs(job, step);
    }
  }

  lemma InOrderIsStrict(steps: seq<Step>, i: nat, j: nat)
    requires InOrder(steps) && i < j < |steps|
    ensures steps[i] != steps[j] && IndexOf(steps[i].phase) <= IndexOf(steps[j].phase)
  {
    assert Before(steps[i], steps[j]);
  }

  /** The validation of what is about to be published. */
  function TargetCheck(job: Job): Step {
    Step(Preflight, if job.target.Cf? then ValidateCf else if job.source.Cf? then ValidateTarget else TargetTree)
  }

  /**
   * Outside dry runs publishing is the last step of every supported route, and a validation of the target and the check
   * that nothing stands at the destination come before it.
   */
  lemma ChecksPrecedePublishing(job: Job)
    requires Shown(job) && Supported(job) && !job.dryRun
    ensures StepsOf(job) != [] && StepsOf(job)[|StepsOf(job)| - 1] == Step(Encode, Publish)
    ensures Step(Preflight, Destination) in StepsOf(job)
    ensures TargetCheck(job) in StepsOf(job)
  {
    hide StepsOf, InOrder, Belongs, Before;
    var steps, publish := StepsOf(job), Step(Encode, Publish);
    EndBelongs(job);
    JobIs(job, publish);
    JobIs(job, TargetCheck(job));
    JobIs(job, Step(Preflight, Destination));
    var last := steps[|steps| - 1];
    JobIs(job, last);
    var k :| 0 <= k < |steps| && steps[k] == publish;
    if k < |steps| - 1 {
      InOrderIsStrict(steps, k, |steps| - 1);
      OnlyPublishing(job, last);
    }
  }

  lemma EndBelongs(job: Job)
    requires Shown(job) && Supported(job) && !job.dryRun
    ensures Belongs(job, Step(Encode, Publish)) && Belongs(job, Step(Preflight, Destination))
    ensures Belongs(job, TargetCheck(job))
  {
    hide Rank, PhaseOf;
    PhaseOfEnd();
    PhaseOfChecks();
  }

  lemma PhaseOfEnd()
    ensures PhaseOf(Publish).Encode? && PhaseOf(Destination).Preflight?
  {
  }

  lemma PhaseOfChecks()
    ensures PhaseOf(ValidateCf).Preflight? && PhaseOf(ValidateTarget).Preflight? && PhaseOf(TargetTree).Preflight?
  {
  }

  lemma OnlyPublishing(job: Job, step: Step)
    requires Belongs(job, step) && step.phase.Encode?
    ensures step == Step(Encode, Publish)
  {
  }
}
