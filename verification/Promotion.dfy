/** Promoting the backend on the production cluster, with a restore when the promotion fails. */
module Promotion {
  import opened Wrappers

  datatype Service = RouteWorker | CloudServer | AgentRunner

  /** Each service is changed after the ones before it. */
  const ORDER: seq<Service> := [RouteWorker, CloudServer, AgentRunner]

  /** The place of a service in ORDER. */
  function Place(s: Service): (place: nat)
    ensures place < 3 && ORDER[place] == s
  {
    match s
    case RouteWorker => 0
    case CloudServer => 1
    case AgentRunner => 2
  }

  /** One image for every service. */
  datatype Images = Images(worker: string, server: string, runner: string) {
    function Of(s: Service): string {
      match s
      case RouteWorker => worker
      case CloudServer => server
      case AgentRunner => runner
    }

    function With(s: Service, image: string): Images {
      match s
      case RouteWorker => this.(worker := image)
      case CloudServer => this.(server := image)
      case AgentRunner => this.(runner := image)
    }
  }

  function ServiceName(s: Service): string {
    match s
    case RouteWorker => "omp-route-worker"
    case CloudServer => "cloud-server"
    case AgentRunner => "cloud-agent-runner"
  }

  /** The digest-addressed name of an image. */
  function Reference(s: Service, digest: string): string {
    "docker.io/library/kordi-" + ServiceName(s) + "@" + digest
  }

  function Canonical(image: string): string {
    if '/' in image then image else "docker.io/library/" + image
  }

  /** Different services or digests have different names. */
  lemma ReferenceInjective(s1: Service, d1: string, s2: Service, d2: string)
    requires Reference(s1, d1) == Reference(s2, d2)
    ensures s1 == s2 && d1 == d2
  {
    var prefix := "docker.io/library/kordi-";
    var a, b := ServiceName(s1), ServiceName(s2);
    Cut(prefix, a + "@" + d1, prefix, b + "@" + d2) by {
      Associate(prefix, a, d1);
      Associate(prefix, b, d2);
    }
    FirstLetters(a, d1);
    FirstLetters(b, d2);
    Cut(a + "@", d1, b + "@", d2);
  }

  lemma Associate(prefix: string, name: string, digest: string)
    ensures prefix + name + "@" + digest == prefix + (name + "@" + digest)
  {
  }

  lemma FirstLetters(name: string, digest: string)
    requires |name| > 6
    ensures (name + "@" + digest)[0] == name[0] && (name + "@" + digest)[6] == name[6]
  {
  }

  lemma Cut(p: string, a: string, q: string, b: string)
    requires |p| == |q| && p + a == q + b
    ensures a == b
  {
    assert (p + a)[|p|..] == a && (q + b)[|q|..] == b;
  }

  // ----- the production machine -----

  datatype Command =
    | VerifyBundle | CreateBackup | VerifyBackup
    | ListImages | GetDeployment(service: Service)
    | TagImage(source: string, name: string) | ImportImages(service: Service)
    | SetImage(service: Service, image: string) | RolloutStatus(service: Service) | ProbeHealth
    | WriteCurrent | WriteFailure | WriteRecord | WriteResult

  predicate IsWrite(c: Command) {
    c.WriteCurrent? || c.WriteFailure? || c.WriteRecord? || c.WriteResult?
  }

  /** Commands with no effect on the machine. */
  predicate IsCheck(c: Command) {
    c.VerifyBundle? || c.CreateBackup? || c.VerifyBackup? || c.ProbeHealth? || IsWrite(c)
  }

  datatype Lookup = Found(image: string) | Missing | Unreadable

  /** How a command ends: it may fail before or after its effect. */
  datatype Fault = Works | FailsBefore | FailsAfter

  /** The images Deployments ask for, and the images their pods may be running. */
  datatype Snapshot = Snapshot(deployed: map<Service, string>, serving: map<Service, set<string>>)

  /** A command that was run, whether it succeeded, and the cluster after it. */
  datatype Entry = Entry(command: Command, worked: bool, after: Snapshot)

  type Faults = (nat, Command) -> Fault

  /** The production machine: Deployments, pods and the image store. */
  class Machine {
    const faults: Faults
    var clock: nat
    var deployed: map<Service, string>
    var serving: map<Service, set<string>>
    var store: map<string, string>
    ghost var log: seq<Entry>

    /** The log holds every command; those that succeeded were let through, and a check that was succeeded. */
    ghost predicate Valid()
      reads this
    {
      && (forall s: Service :: s in serving)
      && clock == |log|
      && (forall k :: 0 <= k < |log| && log[k].worked ==> faults(k, log[k].command) == Works)
      && (forall k :: 0 <= k < |log| && IsCheck(log[k].command) && faults(k, log[k].command) == Works ==> log[k].worked)
    }

    ghost function Now(): Snapshot
      reads this`deployed, this`serving
    {
      Snapshot(deployed, serving)
    }

    /** The command changed neither Deployments nor pods. */
    twostate predicate ClusterKept()
      reads this
    {
      deployed == old(deployed) && serving == old(serving)
    }

    constructor (faults: Faults, deployed: map<Service, string>, serving: map<Service, set<string>>, store: map<string, string>)
      requires forall s: Service :: s in serving
      ensures Valid() && this.faults == faults && log == []
      ensures this.deployed == deployed && this.serving == serving && this.store == store
    {
      this.faults := faults;
      clock := 0;
      this.deployed, this.serving, this.store := deployed, serving, store;
      log := [];
    }

    /** A command with no effect on the machine: a check, a probe, a file written elsewhere. */
    method Check(command: Command) returns (ok: bool)
      requires Valid() && IsCheck(command)
      modifies this`clock, this`log
      ensures Valid() && log == old(log) + [Entry(command, ok, Now())]
      ensures ok <==> faults(old(clock), command) == Works
    {
      ok := faults(clock, command) == Works;
      clock := clock + 1;
      log := log + [Entry(command, ok, Now())];
    }

    /** kubectl set image: the pods may run either image until the rollout has finished. */
    method SetImage(s: Service, image: string) returns (ok: bool)
      requires Valid()
      modifies this`clock, this`log, this`deployed, this`serving
      ensures Valid() && log == old(log) + [Entry(Command.SetImage(s, image), ok, Now())]
      ensures ok <==> faults(old(clock), Command.SetImage(s, image)) == Works && s in old(deployed)
      ensures ok ==> s in deployed && deployed[s] == image
      ensures ClusterKept() || (s in old(deployed) && deployed == old(deployed)[s := image]
                                && serving == old(serving)[s := old(serving)[s] + {image}])
    {
      var fault := faults(clock, Command.SetImage(s, image));
      ok := fault == Works && s in deployed;
      if fault != FailsBefore && s in deployed {
        deployed := deployed[s := image];
        serving := serving[s := serving[s] + {image}];
      }
      clock := clock + 1;
      log := log + [Entry(Command.SetImage(s, image), ok, Now())];
    }

    /** kubectl rollout status: success means only pods of the requested image are left. */
    method RolloutStatus(s: Service) returns (ok: bool)
      requires Valid()
      modifies this`clock, this`log, this`serving
      ensures Valid() && log == old(log) + [Entry(Command.RolloutStatus(s), ok, Now())]
      ensures ok <==> faults(old(clock), Command.RolloutStatus(s)) == Works && s in deployed
      ensures ok ==> s in deployed && serving == old(serving)[s := {deployed[s]}]
      ensures serving == old(serving) || (s in deployed && serving == old(serving)[s := {deployed[s]}])
    {
      var fault := faults(clock, Command.RolloutStatus(s));
      ok := fault == Works && s in deployed;
      if fault != FailsBefore && s in deployed {
        serving := serving[s := {deployed[s]}];
      }
      clock := clock + 1;
      log := log + [Entry(Command.RolloutStatus(s), ok, Now())];
    }

    /** kubectl get deployment: the image, or the finding that there is none. */
    method GetDeployment(s: Service) returns (r: Lookup)
      requires Valid()
      modifies this`clock, this`log
      ensures Valid() && log == old(log) + [Entry(Command.GetDeployment(s), r.Found?, Now())]
      ensures r.Unreadable? <==> faults(old(clock), Command.GetDeployment(s)) != Works
      ensures r.Found? ==> s in deployed && r.image == deployed[s]
      ensures r.Missing? ==> s !in deployed
    {
      var fault := faults(clock, Command.GetDeployment(s));
      r := if fault != Works then Unreadable else if s in deployed then Found(deployed[s]) else Missing;
      clock := clock + 1;
      log := log + [Entry(Command.GetDeployment(s), r.Found?, Now())];
    }

    /** ctr images list */
    method ImageStore() returns (r: Option<map<string, string>>)
      requires Valid()
      modifies this`clock, this`log
      ensures Valid() && log == old(log) + [Entry(ListImages, r.Some?, Now())]
      ensures r == if faults(old(clock), ListImages) == Works then Some(store) else None
    {
      r := if faults(clock, ListImages) == Works then Some(store) else None;
      clock := clock + 1;
      log := log + [Entry(ListImages, r.Some?, Now())];
    }

    /** ctr images tag */
    method TagImage(source: string, name: string) returns (ok: bool)
      requires Valid()
      modifies this`clock, this`log, this`store
      ensures Valid() && log == old(log) + [Entry(Command.TagImage(source, name), ok, Now())]
      ensures ok <==> faults(old(clock), Command.TagImage(source, name)) == Works && source in old(store)
      ensures ok ==> store == old(store)[name := old(store)[source]]
      ensures store == old(store) || (source in old(store) && store == old(store)[name := old(store)[source]])
    {
      var fault := faults(clock, Command.TagImage(source, name));
      ok := fault == Works && source in store;
      if fault != FailsBefore && source in store {
        store := store[name := store[source]];
      }
      clock := clock + 1;
      log := log + [Entry(Command.TagImage(source, name), ok, Now())];
    }

    /** ctr images import: adds what the archive of the service holds. */
    method ImportImages(s: Service, archive: map<string, string>) returns (ok: bool)
      requires Valid()
      modifies this`clock, this`log, this`store
      ensures Valid() && log == old(log) + [Entry(Command.ImportImages(s), ok, Now())]
      ensures ok <==> faults(old(clock), Command.ImportImages(s)) == Works
      ensures ok ==> store == old(store) + archive
      ensures store == old(store) || store == old(store) + archive
    {
      var fault := faults(clock, Command.ImportImages(s));
      ok := fault == Works;
      if fault != FailsBefore {
        store := store + archive;
      }
      clock := clock + 1;
      log := log + [Entry(Command.ImportImages(s), ok, Now())];
    }
  }

  // ----- what the log says -----

  /** More commands were run; none of them wrote down a failure. */
  ghost predicate Continues(before: seq<Entry>, after: seq<Entry>) {
    before <= after && forall k :: |before| <= k < |after| ==> !after[k].command.WriteFailure?
  }

  /** A command of this kind succeeded. */
  ghost predicate Passed(log: seq<Entry>, from: nat, command: Command) {
    exists k :: from <= k < |log| && log[k].worked && log[k].command == command
  }

  /** All states since the given one equal the present one. */
  ghost predicate Still(log: seq<Entry>, from: nat, now: Snapshot) {
    forall k :: from <= k < |log| ==> log[k].after == now
  }

  /** The bundle, the backup and every import have been found good. */
  ghost predicate Checked(log: seq<Entry>, from: nat, auto: bool) {
    && Passed(log, from, VerifyBundle) && (auto ==> Passed(log, from, CreateBackup)) && Passed(log, from, VerifyBackup)
    && (forall s: Service :: Passed(log, from, Command.ImportImages(s)))
  }

  /** Whatever command left the cluster different from the start, everything was checked before it. */
  ghost predicate GuardedChanges(log: seq<Entry>, from: nat, start: Snapshot, auto: bool) {
    forall k :: from <= k < |log| && log[k].after != start ==> Checked(log[..k], from, auto)
  }

  /** A command failed. */
  ghost predicate Failed(log: seq<Entry>, from: nat) {
    exists k :: from <= k < |log| && !log[k].worked
  }

  /** A command failed that is no probe, of which several may be needed, and writes no outcome. */
  ghost predicate Broken(log: seq<Entry>, from: nat) {
    exists k :: from <= k < |log| && !log[k].worked && EndsWork(log[k].command)
  }

  predicate EndsWork(c: Command) {
    !c.ProbeHealth? && !c.WriteRecord? && !c.WriteResult?
  }

  /** The health address was probed and never answered. */
  ghost predicate Unanswered(log: seq<Entry>, from: nat) {
    && (exists k :: from <= k < |log| && log[k].command.ProbeHealth?)
    && forall k :: from <= k < |log| && log[k].command.ProbeHealth? ==> !log[k].worked
  }

  /** What makes a rollout or a restore fail: a broken command, or a health address that never answers. */
  ghost predicate Fails(log: seq<Entry>, from: nat) {
    Broken(log, from) || Unanswered(log, from)
  }

  ghost predicate Unprobed(log: seq<Entry>, from: nat) {
    forall k :: from <= k < |log| ==> !log[k].command.ProbeHealth?
  }

  /** Every command works, except perhaps those that set an image or write the outcome down. */
  ghost predicate Reliable(faults: Faults) {
    forall t: nat, c: Command :: !c.SetImage? && !IsWrite(c) ==> faults(t, c) == Works
  }

  /** These images can be set. */
  ghost predicate CanSet(faults: Faults, images: Images) {
    forall t: nat, s: Service :: faults(t, Command.SetImage(s, images.Of(s))) == Works
  }

  ghost predicate AllWork(faults: Faults) {
    forall t: nat, c: Command :: faults(t, c) == Works
  }

  lemma PassedGrows(before: seq<Entry>, after: seq<Entry>, from: nat, command: Command)
    requires before <= after && Passed(before, from, command)
    ensures Passed(after, from, command)
  {
    var k :| from <= k < |before| && before[k].worked && before[k].command == command;
    assert after[k] == before[k];
  }

  lemma FailedGrows(before: seq<Entry>, log: seq<Entry>, from: nat)
    requires before <= log && Failed(before, from)
    ensures Failed(log, from)
  {
    var k :| from <= k < |before| && !before[k].worked;
    assert log[k] == before[k];
  }

  lemma FailedEarlier(log: seq<Entry>, from: nat, earlier: nat)
    requires earlier <= from && Failed(log, from)
    ensures Failed(log, earlier)
  {
  }

  lemma LastFailed(log: seq<Entry>, from: nat)
    requires from < |log| && !log[|log| - 1].worked
    ensures Failed(log, from)
  {
  }

  lemma FailsIsFailed(log: seq<Entry>, from: nat)
    ensures Fails(log, from) ==> Failed(log, from)
  {
  }

  /** A stretch of the log without probes fails exactly by a broken command; two stretches fail if one does. */
  lemma FailsJoin(before: seq<Entry>, log: seq<Entry>, from: nat)
    requires from <= |before| && before <= log && Unprobed(before, from)
    ensures Fails(log, from) <==> Fails(before, from) || Fails(log, |before|)
  {
    assert Broken(log, from) <==> Broken(before, from) || Broken(log, |before|) by { BrokenJoin(before, log, from); }
    assert Unanswered(log, from) <==> Unanswered(log, |before|) by { UnansweredJoin(before, log, from); }
  }

  lemma BrokenJoin(before: seq<Entry>, log: seq<Entry>, from: nat)
    requires from <= |before| && before <= log
    ensures Broken(log, from) <==> Broken(before, from) || Broken(log, |before|)
  {
    hide EndsWork;
    assert forall k :: from <= k < |before| ==> before[k] == log[k];
    if Broken(before, from) {
      var k :| from <= k < |before| && !before[k].worked && EndsWork(before[k].command);
      assert log[k] == before[k];
    }
  }

  lemma UnansweredJoin(before: seq<Entry>, log: seq<Entry>, from: nat)
    requires from <= |before| && before <= log && Unprobed(before, from)
    ensures Unanswered(log, from) <==> Unanswered(log, |before|)
  {
    assert forall k :: from <= k < |before| ==> before[k] == log[k];
  }

  lemma UnprobedJoin(before: seq<Entry>, log: seq<Entry>, from: nat)
    requires from <= |before| && before <= log && Unprobed(before, from) && Unprobed(log, |before|)
    ensures Unprobed(log, from)
  {
    assert forall k :: from <= k < |before| ==> before[k] == log[k];
  }

  lemma CheckedGrows(before: seq<Entry>, after: seq<Entry>, from: nat, auto: bool)
    requires before <= after && Checked(before, from, auto)
    ensures Checked(after, from, auto)
  {
    hide Passed;
    PassedGrows(before, after, from, VerifyBundle);
    PassedGrows(before, after, from, VerifyBackup);
    if auto {
      PassedGrows(before, after, from, CreateBackup);
    }
    forall s: Service
      ensures Passed(after, from, Command.ImportImages(s))
    {
      PassedGrows(before, after, from, Command.ImportImages(s));
    }
  }

  /** Once everything is checked, any further command is guarded. */
  lemma GuardedGrows(before: seq<Entry>, after: seq<Entry>, from: nat, start: Snapshot, auto: bool)
    requires before <= after && Checked(before, from, auto) && GuardedChanges(before, from, start, auto)
    ensures GuardedChanges(after, from, start, auto)
  {
    hide Checked;
    forall k | from <= k < |after| && after[k].after != start
      ensures Checked(after[..k], from, auto)
    {
      if k < |before| {
        assert after[k] == before[k] && after[..k] == before[..k];
      } else {
        CheckedGrows(before, after[..k], from, auto);
      }
    }
  }

  // ----- what must hold in every state -----

  /** A service whose image changes runs the new one only where every service before it does. */
  ghost predicate Ordered(now: Snapshot, target: Images, previous: Images) {
    forall a: Service, b: Service ::
      Place(a) < Place(b) && target.Of(b) != previous.Of(b) ==> PairOrdered(now, target, a, b)
  }

  ghost predicate PairOrdered(now: Snapshot, target: Images, a: Service, b: Service) {
    && (b in now.serving && target.Of(b) in now.serving[b] ==> a in now.serving && now.serving[a] == {target.Of(a)})
    && (b in now.deployed && now.deployed[b] == target.Of(b) ==> a in now.deployed && now.deployed[a] == target.Of(a))
  }

  ghost predicate AllOrdered(log: seq<Entry>, from: nat, target: Images, previous: Images) {
    forall k :: from <= k < |log| ==> Ordered(log[k].after, target, previous)
  }

  ghost predicate RunsOnly(now: Snapshot, s: Service, image: string) {
    s in now.deployed && now.deployed[s] == image && s in now.serving && now.serving[s] == {image}
  }

  ghost predicate AllRun(now: Snapshot, images: Images) {
    forall s: Service :: RunsOnly(now, s, images.Of(s))
  }

  /** The services already handled, from the front or, on a restore, from the back. */
  ghost predicate Handled(now: Snapshot, images: Images, restore: bool, n: nat) {
    forall s: Service :: (if restore then Place(s) > 2 - n else Place(s) < n) ==> RunsOnly(now, s, images.Of(s))
  }

  /** Every service is on its old image or on the one being set. */
  ghost predicate OldOr(now: Snapshot, start: Snapshot, images: Images) {
    forall s: Service :: s in now.deployed ==>
      now.deployed[s] == images.Of(s) || (s in start.deployed && now.deployed[s] == start.deployed[s])
  }

  /** Setting the next image keeps the order, forwards and backwards. */
  lemma SetKeepsOrder(before: Snapshot, after: Snapshot, s: Service, n: nat, restore: bool, target: Images, previous: Images)
    requires n < 3 && Place(s) == (if restore then 2 - n else n) && s in before.serving
    requires var images := if restore then previous else target;
      && Handled(before, images, restore, n)
      && after == Snapshot(before.deployed[s := images.Of(s)],
                           before.serving[s := before.serving[s] + {images.Of(s)}])
    ensures Ordered(before, target, previous) ==> Ordered(after, target, previous)
    ensures Handled(after, if restore then previous else target, restore, n)
  {
    forall a: Service, b: Service |
      Ordered(before, target, previous) && Place(a) < Place(b) && target.Of(b) != previous.Of(b)
      ensures PairOrdered(after, target, a, b)
    {
      assert PairOrdered(before, target, a, b);
      assert !restore && b == s ==> RunsOnly(before, a, target.Of(a));
      assert restore && a == s ==> RunsOnly(before, b, previous.Of(b));
    }
    forall o: Service | if restore then Place(o) > 2 - n else Place(o) < n
      ensures RunsOnly(after, o, (if restore then previous else target).Of(o))
    {
      assert RunsOnly(before, o, (if restore then previous else target).Of(o));
    }
  }

  /** Finishing the rollout just started keeps the order and handles the service. */
  lemma RolloutKeepsOrder(before: Snapshot, after: Snapshot, s: Service, n: nat, restore: bool, target: Images, previous: Images)
    requires n < 3 && Place(s) == (if restore then 2 - n else n) && s in before.serving && s in before.deployed
    requires var images := if restore then previous else target;
      && Handled(before, images, restore, n) && before.deployed[s] == images.Of(s)
      && after == Snapshot(before.deployed, before.serving[s := {images.Of(s)}])
    ensures Ordered(before, target, previous) ==> Ordered(after, target, previous)
    ensures Handled(after, if restore then previous else target, restore, n + 1)
  {
    forall a: Service, b: Service |
      Ordered(before, target, previous) && Place(a) < Place(b) && target.Of(b) != previous.Of(b)
      ensures PairOrdered(after, target, a, b)
    {
      assert PairOrdered(before, target, a, b);
      assert !restore && b == s ==> RunsOnly(before, a, target.Of(a));
      assert restore && a == s ==> RunsOnly(before, b, previous.Of(b));
    }
    forall o: Service | if restore then Place(o) > 2 - (n + 1) else Place(o) < n + 1
      ensures RunsOnly(after, o, (if restore then previous else target).Of(o))
    {
      assert o != s ==> RunsOnly(before, o, (if restore then previous else target).Of(o));
    }
  }

  /** Sets one service after the other, each rollout finished first; a restore goes backwards. */
  method ApplyImages(m: Machine, images: Images, restore: bool, ghost target: Images, ghost previous: Images)
    returns (ok: bool)
    requires m.Valid()
    requires images == if restore then previous else target
    modifies m`clock, m`log, m`deployed, m`serving
    ensures m.Valid() && Continues(old(m.log), m.log)
    ensures |m.log| > |old(m.log)|
    ensures var first := if restore then AgentRunner else RouteWorker;
      m.log[|old(m.log)|].command == Command.SetImage(first, images.Of(first))
    ensures Ordered(old(m.Now()), target, previous) ==>
              Ordered(m.Now(), target, previous) && AllOrdered(m.log, |old(m.log)|, target, previous)
    ensures ok ==> AllRun(m.Now(), images)
    ensures Unprobed(m.log, |old(m.log)|) && (ok <==> !Fails(m.log, |old(m.log)|))
    ensures Reliable(m.faults) && CanSet(m.faults, images) && AllDeployed(old(m.deployed)) ==> ok
    ensures OldOr(m.Now(), old(m.Now()), images) && m.deployed.Keys == old(m.deployed).Keys
  {
    NoneYet(m.log);
    NothingYet(m.log, m.Now());
    NoneOrdered(m.log, target, previous);
    OldIsOld(m.Now(), images);
    hide Ordered, PairOrdered, RunsOnly, Reliable, CanSet, Unprobed, Fails, Continues, AllOrdered, OldOr, AllDeployed;
    for n := 0 to 3
      invariant Unprobed(m.log, |old(m.log)|) && !Fails(m.log, |old(m.log)|)
      invariant m.Valid() && Continues(old(m.log), m.log)
      invariant n > 0 ==> |m.log| > |old(m.log)|
      invariant n == 0 ==> m.log == old(m.log)
      invariant n > 0 ==> var first := if restore then AgentRunner else RouteWorker;
                            m.log[|old(m.log)|].command == Command.SetImage(first, images.Of(first))
      invariant Ordered(old(m.Now()), target, previous) ==>
                  Ordered(m.Now(), target, previous) && AllOrdered(m.log, |old(m.log)|, target, previous)
      invariant Handled(m.Now(), images, restore, n)
      invariant OldOr(m.Now(), old(m.Now()), images) && m.deployed.Keys == old(m.deployed).Keys
    {
      assert ORDER[if restore then 2 else 0] == if restore then AgentRunner else RouteWorker;
      ghost var before, now := m.log, m.Now();
      SameKeys(old(m.deployed), m.deployed);
      ok := ApplyOne(m, images, restore, n, target, previous);
      OldOrNext(old(m.Now()), now, m.Now(), images, ORDER[if restore then 2 - n else n]);
      ContinuesIsPrefix(old(m.log), before);
      Onwards(old(m.log), before, m.log, m.Now());
      ContinuesIsPrefix(before, m.log);
      OrderedTwice(before, |old(m.log)|, m.log, target, previous);
      UnprobedJoin(before, m.log, |old(m.log)|);
      FailsJoin(before, m.log, |old(m.log)|);
      if !ok {
        return;
      }
    }
    return true;
  }

  lemma OldOrNext(start: Snapshot, before: Snapshot, after: Snapshot, images: Images, s: Service)
    requires OldOr(before, start, images)
    requires after.deployed == before.deployed
             || (s in before.deployed && after.deployed == before.deployed[s := images.Of(s)])
    ensures OldOr(after, start, images) && after.deployed.Keys == before.deployed.Keys
  {
  }

  lemma NoneOrdered(log: seq<Entry>, target: Images, previous: Images)
    ensures AllOrdered(log, |log|, target, previous)
  {
  }

  lemma NoneYet(log: seq<Entry>)
    ensures Unprobed(log, |log|) && !Fails(log, |log|) && !Failed(log, |log|)
  {
  }

  /** Sets the n-th image and waits for its rollout. */
  method ApplyOne(m: Machine, images: Images, restore: bool, n: nat, ghost target: Images, ghost previous: Images)
    returns (ok: bool)
    requires m.Valid() && n < 3
    requires images == (if restore then previous else target) && Handled(m.Now(), images, restore, n)
    modifies m`clock, m`log, m`deployed, m`serving
    ensures m.Valid() && Continues(old(m.log), m.log) && |m.log| > |old(m.log)|
    ensures var service := ORDER[if restore then 2 - n else n];
      && m.log[|old(m.log)|].command == Command.SetImage(service, images.Of(service))
      && (m.deployed == old(m.deployed)
          || (service in old(m.deployed) && m.deployed == old(m.deployed)[service := images.Of(service)]))
    ensures Ordered(old(m.Now()), target, previous) ==>
              Ordered(m.Now(), target, previous) && AllOrdered(m.log, |old(m.log)|, target, previous)
    ensures ok ==> Handled(m.Now(), images, restore, n + 1)
    ensures Unprobed(m.log, |old(m.log)|) && (ok <==> !Fails(m.log, |old(m.log)|))
    ensures Reliable(m.faults) && CanSet(m.faults, images) && AllDeployed(old(m.deployed)) ==> ok
  {
    hide Ordered, PairOrdered, RunsOnly, Handled, Fails;
    var service := ORDER[if restore then 2 - n else n];
    ghost var before := m.Now();
    ok := m.SetImage(service, images.Of(service));
    SetKeepsOrder(before, Snapshot(before.deployed[service := images.Of(service)],
                                   before.serving[service := before.serving[service] + {images.Of(service)}]),
                  service, n, restore, target, previous);
    OneEntry(m.log);
    if !ok {
      return;
    }
    ghost var entries := m.log;
    before := m.Now();
    ok := m.RolloutStatus(service);
    OneEntry(m.log);
    FailsJoin(entries, m.log, |old(m.log)|);
    RolloutKeepsOrder(before, Snapshot(before.deployed, before.serving[service := {images.Of(service)}]),
                      service, n, restore, target, previous);
  }

  lemma OneEntry(log: seq<Entry>)
    requires log != [] && EndsWork(log[|log| - 1].command)
    ensures Unprobed(log, |log| - 1) && (Fails(log, |log| - 1) <==> !log[|log| - 1].worked)
  {
    var last := |log| - 1;
    if !log[last].worked {
      assert Broken(log, last);
    }
  }

  ghost predicate AllDeployed(deployed: map<Service, string>) {
    forall s: Service :: s in deployed
  }

  /** Probes the public health address, at most twelve times. */
  method Health(m: Machine) returns (ok: bool)
    requires m.Valid()
    modifies m`clock, m`log
    ensures m.Valid() && Continues(old(m.log), m.log) && Still(m.log, |old(m.log)|, m.Now())
    ensures |old(m.log)| < |m.log| <= |old(m.log)| + 12
    ensures ok ==> m.log[|m.log| - 1] == Entry(ProbeHealth, true, m.Now())
    ensures !ok ==> |m.log| == |old(m.log)| + 12
                    && forall k :: |old(m.log)| <= k < |m.log| ==> m.log[k] == Entry(ProbeHealth, false, m.Now())
    ensures ok <==> !Fails(m.log, |old(m.log)|)
    ensures Reliable(m.faults) ==> ok
  {
    for i := 0 to 12
      invariant m.Valid() && Continues(old(m.log), m.log) && |m.log| == |old(m.log)| + i
      invariant forall k :: |old(m.log)| <= k < |m.log| ==> m.log[k] == Entry(ProbeHealth, false, m.Now())
      invariant Reliable(m.faults) ==> i == 0
    {
      ok := m.Check(ProbeHealth);
      if ok {
        return;
      }
    }
    assert m.log[|old(m.log)|].command == ProbeHealth;
    return false;
  }

  /** Waits for each rollout, compares each image, and probes the public address. */
  method VerifyRunning(m: Machine, images: Images) returns (ok: bool)
    requires m.Valid()
    modifies m`clock, m`log, m`serving
    ensures m.Valid() && Continues(old(m.log), m.log)
    ensures ok ==> AllRun(m.Now(), images) && |m.log| > |old(m.log)| && m.log[|m.log| - 1] == Entry(ProbeHealth, true, m.Now())
    ensures old(AllRun(m.Now(), images)) ==> m.Now() == old(m.Now()) && Still(m.log, |old(m.log)|, m.Now())
    ensures ok ==> !Fails(m.log, |old(m.log)|)
    ensures old(AllRun(m.Now(), images)) && !ok ==> Fails(m.log, |old(m.log)|)
    ensures old(AllRun(m.Now(), images)) && Reliable(m.faults) ==> ok
  {
    NoneYet(m.log);
    hide Fails, Unprobed, Reliable;
    ghost var settled := AllRun(m.Now(), images);
    for n := 0 to 3
      invariant Unprobed(m.log, |old(m.log)|) && !Fails(m.log, |old(m.log)|)
      invariant m.Valid() && Continues(old(m.log), m.log)
      invariant forall s: Service :: Place(s) < n ==> RunsOnly(m.Now(), s, images.Of(s))
      invariant settled ==> m.Now() == old(m.Now()) && Still(m.log, |old(m.log)|, m.Now())
    {
      ghost var before, entries := m.Now(), m.log;
      assert settled ==> RunsOnly(before, ORDER[n], images.Of(ORDER[n]));
      ok := VerifyOne(m, ORDER[n], images.Of(ORDER[n]));
      UnprobedJoin(entries, m.log, |old(m.log)|);
      FailsJoin(entries, m.log, |old(m.log)|);
      if !ok {
        return;
      }
      forall s: Service | Place(s) < n + 1
        ensures RunsOnly(m.Now(), s, images.Of(s))
      {
        assert s != ORDER[n] ==> RunsOnly(before, s, images.Of(s));
      }
    }
    ghost var entries := m.log;
    ok := Health(m);
    FailsJoin(entries, m.log, |old(m.log)|);
  }

  /** Waits for the rollout of one service and compares its image. */
  method VerifyOne(m: Machine, service: Service, image: string) returns (ok: bool)
    requires m.Valid()
    modifies m`clock, m`log, m`serving
    ensures m.Valid() && Continues(old(m.log), m.log)
    ensures m.serving == old(m.serving) || (service in m.deployed && m.serving == old(m.serving)[service := {m.deployed[service]}])
    ensures ok ==> RunsOnly(m.Now(), service, image)
    ensures old(RunsOnly(m.Now(), service, image)) ==> m.Now() == old(m.Now()) && Still(m.log, |old(m.log)|, m.Now())
    ensures Unprobed(m.log, |old(m.log)|) && (ok ==> !Fails(m.log, |old(m.log)|))
    ensures old(RunsOnly(m.Now(), service, image)) && !ok ==> Fails(m.log, |old(m.log)|)
    ensures old(RunsOnly(m.Now(), service, image)) && Reliable(m.faults) ==> ok
  {
    hide Fails;
    ok := m.RolloutStatus(service);
    OneEntry(m.log);
    if !ok {
      return;
    }
    ghost var entries := m.log;
    var found := m.GetDeployment(service);
    ok := found == Found(image);
    OneEntry(m.log);
    FailsJoin(entries, m.log, |old(m.log)|);
  }

  // ----- the images a promotion needs -----

  datatype Capture = Captured(images: Images) | MissingDeployment | NotCaptured

  /** The names, by digest, of the images that run now. */
  ghost predicate IsPrevious(previous: Images, deployed: map<Service, string>, store: map<string, string>) {
    forall s: Service ::
      s in deployed && Canonical(deployed[s]) in store && previous.Of(s) == Reference(s, store[Canonical(deployed[s])])
  }

  /** The image store holds all the names. */
  ghost predicate Held(images: Images, store: map<string, string>) {
    forall s: Service :: images.Of(s) in store
  }

  /** A name by digest stands for that digest. */
  ghost predicate Honest(store: map<string, string>) {
    forall s: Service, d: string :: Reference(s, d) in store ==> store[Reference(s, d)] == d
  }

  lemma HonestName(store: map<string, string>, s: Service, d: string)
    requires Honest(store)
    ensures Honest(store[Reference(s, d) := d])
  {
    var t := store[Reference(s, d) := d];
    forall s1: Service, d1: string | Reference(s1, d1) in t
      ensures t[Reference(s1, d1)] == d1
    {
      if Reference(s1, d1) == Reference(s, d) {
        ReferenceInjective(s1, d1, s, d);
      }
    }
  }

  lemma HonestUnion(store: map<string, string>, archive: map<string, string>)
    requires Honest(store) && Honest(archive)
    ensures Honest(store + archive)
  {
  }

  /** Reads every Deployment before it tags anything, so a missing one changes nothing. */
  method CapturePrevious(m: Machine) returns (r: Capture)
    requires m.Valid()
    modifies m`clock, m`log, m`store
    ensures m.Valid() && Continues(old(m.log), m.log) && Still(m.log, |old(m.log)|, m.Now())
    ensures r.Captured? ==> IsPrevious(r.images, m.deployed, old(m.store)) && Held(r.images, m.store)
    ensures r.MissingDeployment? ==> m.store == old(m.store) && exists s: Service :: s !in m.deployed
    ensures Honest(old(m.store)) ==> Honest(m.store)
    ensures !r.Captured? ==> Failed(m.log, |old(m.log)|) || !Resolvable(m.deployed, old(m.store))
    ensures Reliable(m.faults) && Resolvable(m.deployed, old(m.store)) ==> r.Captured?
  {
    hide Honest, Held, Failed;
    var stored := m.ImageStore();
    if stored.None? {
      LastFailed(m.log, |old(m.log)|);
      return NotCaptured;
    }
    ghost var listed := m.log;
    var containers := ReadImages(m);
    if !containers.Captured? {
      FailedEarlier(m.log, |listed|, |old(m.log)|);
      return containers;
    }
    listed := m.log;
    r := TagPrevious(m, containers.images, stored.value);
    if Failed(m.log, |listed|) {
      FailedEarlier(m.log, |listed|, |old(m.log)|);
    }
  }

  /** The image of every Deployment. */
  method ReadImages(m: Machine) returns (r: Capture)
    requires m.Valid()
    modifies m`clock, m`log
    ensures m.Valid() && Continues(old(m.log), m.log) && Still(m.log, |old(m.log)|, m.Now())
    ensures r.Captured? ==> forall s: Service :: s in m.deployed && r.images.Of(s) == m.deployed[s]
    ensures r.MissingDeployment? ==> exists s: Service :: s !in m.deployed
    ensures !r.Captured? ==> Failed(m.log, |old(m.log)|)
    ensures Reliable(m.faults) && AllDeployed(m.deployed) ==> r.Captured?
  {
    var containers := Images("", "", "");
    for n := 0 to 3
      invariant m.Valid() && Continues(old(m.log), m.log) && Still(m.log, |old(m.log)|, m.Now())
      invariant forall s: Service :: Place(s) < n ==> s in m.deployed && containers.Of(s) == m.deployed[s]
    {
      var found := m.GetDeployment(ORDER[n]);
      if !found.Found? {
        LastFailed(m.log, |old(m.log)|);
      }
      if found.Missing? {
        return MissingDeployment;
      }
      if found.Unreadable? {
        return NotCaptured;
      }
      containers := containers.With(ORDER[n], found.image);
    }
    return Captured(containers);
  }

  /** Names each image by its digest, unless it has that name. */
  method TagPrevious(m: Machine, containers: Images, stored: map<string, string>) returns (r: Capture)
    requires m.Valid() && stored == m.store
    modifies m`clock, m`log, m`store
    ensures m.Valid() && Continues(old(m.log), m.log) && Still(m.log, |old(m.log)|, m.Now())
    ensures !r.MissingDeployment?
    ensures r.Captured? ==> forall s: Service ::
                              Canonical(containers.Of(s)) in stored
                              && r.images.Of(s) == Reference(s, stored[Canonical(containers.Of(s))])
    ensures r.Captured? ==> Held(r.images, m.store)
    ensures Honest(stored) ==> Honest(m.store)
    ensures !r.Captured? ==> Failed(m.log, |old(m.log)|) || exists s: Service :: Canonical(containers.Of(s)) !in stored
    ensures Reliable(m.faults) && (forall s: Service :: Canonical(containers.Of(s)) in stored) ==> r.Captured?
  {
    hide Canonical, Reference, Honest, Failed, Machine.Valid;
    var previous := Images("", "", "");
    for n := 0 to 3
      invariant m.Valid() && Continues(old(m.log), m.log) && Still(m.log, |old(m.log)|, m.Now())
      invariant forall s: Service :: Place(s) < n ==>
                  Canonical(containers.Of(s)) in stored
                  && previous.Of(s) == Reference(s, stored[Canonical(containers.Of(s))])
      invariant KeepsNames(stored, m.store) && forall s: Service :: Place(s) < n ==> previous.Of(s) in m.store
      invariant Honest(stored) ==> Honest(m.store)
    {
      var service := ORDER[n];
      var name := Canonical(containers.Of(service));
      if name !in stored {
        return NotCaptured;
      }
      previous := previous.With(service, Reference(service, stored[name]));
      if previous.Of(service) !in stored {
        if Honest(m.store) {
          HonestName(m.store, service, stored[name]);
        }
        var ok := m.TagImage(name, previous.Of(service));
        if !ok {
          LastFailed(m.log, |old(m.log)|);
          return NotCaptured;
        }
      }
    }
    return Captured(previous);
  }

  /** No name was removed or given another digest. */
  ghost predicate KeepsNames(before: map<string, string>, after: map<string, string>) {
    forall name :: name in before ==> name in after && after[name] == before[name]
  }

  /** A verified bundle: tags, approved digests, and what each archive would import. */
  datatype Bundle = Bundle(tags: Images, digests: Images, archive: Service -> map<string, string>)

  function Target(bundle: Bundle): Images {
    Images(Reference(RouteWorker, bundle.digests.worker), Reference(CloudServer, bundle.digests.server),
           Reference(AgentRunner, bundle.digests.runner))
  }

  /** Imports one archive, checks the digest its tag now has, and names the image by it. */
  method ImportOne(m: Machine, s: Service, archive: map<string, string>, tag: string, digest: string) returns (ok: bool)
    requires m.Valid()
    modifies m`clock, m`log, m`store
    ensures m.Valid() && Continues(old(m.log), m.log) && Still(m.log, |old(m.log)|, m.Now())
    ensures old(m.store).Keys <= m.store.Keys
    ensures ok ==> Reference(s, digest) in m.store && tag in m.store && m.store[tag] == digest
    ensures ok ==> Passed(m.log, |old(m.log)|, Command.ImportImages(s))
    ensures Honest(old(m.store)) && Honest(archive) ==> Honest(m.store)
    ensures !ok ==> Failed(m.log, |old(m.log)|) || tag !in archive || archive[tag] != digest
    ensures Reliable(m.faults) && tag in archive && archive[tag] == digest ==> ok
  {
    hide Reference, Honest, Passed, Continues, Still, Reliable, Failed;
    ok := ImportAndCompare(m, s, archive, tag, digest);
    if !ok {
      return;
    }
    ghost var imported := m.log;
    ok := NameByDigest(m, s, tag, digest);
    Onwards(old(m.log), imported, m.log, m.Now());
    ContinuesIsPrefix(imported, m.log);
    ContinuesIsPrefix(old(m.log), imported);
    if !ok {
      FailedEarlier(m.log, |imported|, |old(m.log)|);
    }
    PassedGrows(imported, m.log, |old(m.log)|, Command.ImportImages(s));
  }

  /** Imports one archive and compares the digest its tag now has with the approved one. */
  method ImportAndCompare(m: Machine, s: Service, archive: map<string, string>, tag: string, digest: string)
    returns (ok: bool)
    requires m.Valid()
    modifies m`clock, m`log, m`store
    ensures m.Valid() && Continues(old(m.log), m.log) && Still(m.log, |old(m.log)|, m.Now())
    ensures old(m.store).Keys <= m.store.Keys
    ensures ok ==> tag in m.store && m.store[tag] == digest && Passed(m.log, |old(m.log)|, Command.ImportImages(s))
    ensures Honest(old(m.store)) && Honest(archive) ==> Honest(m.store)
    ensures !ok ==> Failed(m.log, |old(m.log)|) || tag !in archive || archive[tag] != digest
    ensures Reliable(m.faults) && tag in archive && archive[tag] == digest ==> ok
  {
    hide Reference, Honest, Passed, Failed, Continues, Still, Machine.Valid;
    if Honest(m.store) && Honest(archive) {
      HonestUnion(m.store, archive);
    }
    ghost var before := m.log;
    ok := m.ImportImages(s, archive);
    ghost var imported := m.log;
    OneCommand(before, imported);
    if !ok {
      LastFailed(imported, |before|);
      return;
    }
    LastPassed(imported);
    var stored := m.ImageStore();
    OneCommand(imported, m.log);
    Onwards(before, imported, m.log, m.Now());
    if stored.None? {
      LastFailed(m.log, |before|);
    }
    PassedGrows(imported, m.log, |before|, Command.ImportImages(s));
    ok := stored.Some? && tag in stored.value && stored.value[tag] == digest;
  }

  lemma OneCommand(before: seq<Entry>, log: seq<Entry>)
    requires |log| == |before| + 1 && before <= log && !log[|before|].command.WriteFailure?
    ensures Continues(before, log) && Still(log, |before|, log[|before|].after)
  {
  }

  /** Two stretches of the log make one. */
  lemma Onwards(start: seq<Entry>, before: seq<Entry>, after: seq<Entry>, now: Snapshot)
    requires Continues(start, before) && Continues(before, after)
    ensures start <= after && Continues(start, after)
    ensures Still(before, |start|, now) && Still(after, |before|, now) ==> Still(after, |start|, now)
  {
  }

  lemma ContinuesIsPrefix(before: seq<Entry>, after: seq<Entry>)
    requires Continues(before, after)
    ensures before <= after
  {
  }

  lemma LastPassed(log: seq<Entry>)
    requires log != [] && log[|log| - 1].worked
    ensures Passed(log, |log| - 1, log[|log| - 1].command)
  {
  }

  /** Gives a tagged image its name by digest, unless that name is in the store. */
  method NameByDigest(m: Machine, s: Service, tag: string, digest: string) returns (ok: bool)
    requires m.Valid() && tag in m.store && m.store[tag] == digest
    modifies m`clock, m`log, m`store
    ensures m.Valid() && Continues(old(m.log), m.log) && Still(m.log, |old(m.log)|, m.Now())
    ensures old(m.store).Keys <= m.store.Keys && tag in m.store && m.store[tag] == digest
    ensures ok ==> Reference(s, digest) in m.store
    ensures Honest(old(m.store)) ==> Honest(m.store)
    ensures !ok ==> Failed(m.log, |old(m.log)|)
    ensures Reliable(m.faults) ==> ok
  {
    hide Reference, Honest, Failed, Machine.Valid;
    var stored := m.ImageStore();
    if stored.None? {
      LastFailed(m.log, |old(m.log)|);
      return false;
    }
    ok := true;
    if Reference(s, digest) !in stored.value {
      if Honest(m.store) {
        HonestName(m.store, s, digest);
      }
      ok := m.TagImage(tag, Reference(s, digest));
      if !ok {
        LastFailed(m.log, |old(m.log)|);
      }
    }
  }

  /** Imports the approved images and gives each its name by digest. */
  method ImportApproved(m: Machine, bundle: Bundle) returns (images: Option<Images>)
    requires m.Valid()
    modifies m`clock, m`log, m`store
    ensures m.Valid() && Continues(old(m.log), m.log) && Still(m.log, |old(m.log)|, m.Now())
    ensures images.Some? ==> images.value == Target(bundle) && Held(images.value, m.store)
    ensures images.Some? ==> forall s: Service :: Passed(m.log, |old(m.log)|, Command.ImportImages(s))
    ensures old(m.store).Keys <= m.store.Keys
    ensures Honest(old(m.store)) && HonestArchives(bundle) ==> Honest(m.store)
    ensures images.None? ==> Failed(m.log, |old(m.log)|) || !Approved(bundle)
    ensures Reliable(m.faults) && Approved(bundle) ==> images.Some?
  {
    NothingYet(m.log, m.Now());
    var named := Images("", "", "");
    assert NamedUpTo(named, bundle, m.store, 0);
    hide Reliable, Reference, Honest, Passed, Continues, Still, ImportedUpTo, Approved, HonestArchives, NamedUpTo, Held, Failed;
    for n := 0 to 3
      invariant m.Valid() && Continues(old(m.log), m.log) && Still(m.log, |old(m.log)|, m.Now())
      invariant old(m.store).Keys <= m.store.Keys && NamedUpTo(named, bundle, m.store, n)
      invariant ImportedUpTo(m.log, |old(m.log)|, n)
      invariant Honest(old(m.store)) && HonestArchives(bundle) ==> Honest(m.store)
    {
      var service := ORDER[n];
      ghost var before, stored := m.log, m.store;
      assert Approved(bundle) ==> bundle.tags.Of(service) in bundle.archive(service)
                                  && bundle.archive(service)[bundle.tags.Of(service)] == bundle.digests.Of(service) by {
        ApprovedOne(bundle, service);
      }
      assert HonestArchives(bundle) ==> Honest(bundle.archive(service)) by {
        HonestOne(bundle, service);
      }
      var ok := ImportOne(m, service, bundle.archive(service), bundle.tags.Of(service), bundle.digests.Of(service));
      Onwards(old(m.log), before, m.log, m.Now());
      if !ok {
        ContinuesIsPrefix(old(m.log), before);
        if Failed(m.log, |before|) {
          FailedEarlier(m.log, |before|, |old(m.log)|);
        }
        return None;
      }
      NamedNext(named, bundle, stored, m.store, n);
      named := named.With(service, Reference(service, bundle.digests.Of(service)));
      ContinuesIsPrefix(before, m.log);
      ContinuesIsPrefix(old(m.log), before);
      ImportedNext(before, m.log, |old(m.log)|, n);
    }
    NamedIsTarget(named, bundle, m.store);
    ImportedAll(m.log, |old(m.log)|);
    return Some(named);
  }

  lemma NothingYet(log: seq<Entry>, now: Snapshot)
    ensures Continues(log, log) && Still(log, |log|, now) && ImportedUpTo(log, |log|, 0)
  {
  }

  lemma ImportedAll(log: seq<Entry>, from: nat)
    requires ImportedUpTo(log, from, 3)
    ensures forall s: Service :: Passed(log, from, Command.ImportImages(s))
  {
  }

  /** The archives of the first n services have been imported. */
  ghost predicate ImportedUpTo(log: seq<Entry>, from: nat, n: nat) {
    forall s: Service :: Place(s) < n ==> Passed(log, from, Command.ImportImages(s))
  }

  lemma ImportedNext(before: seq<Entry>, log: seq<Entry>, from: nat, n: nat)
    requires from <= |before| && before <= log && n < 3
    requires ImportedUpTo(before, from, n) && Passed(log, |before|, Command.ImportImages(ORDER[n]))
    ensures ImportedUpTo(log, from, n + 1)
  {
    hide Passed;
    forall s: Service | Place(s) < n + 1
      ensures Passed(log, from, Command.ImportImages(s))
    {
      if Place(s) < n {
        PassedGrows(before, log, from, Command.ImportImages(s));
      } else {
        PassedEarlier(log, |before|, from, Command.ImportImages(s));
      }
    }
  }

  /** The first n images have their names by digest, which the store holds. */
  ghost predicate NamedUpTo(named: Images, bundle: Bundle, store: map<string, string>, n: nat) {
    forall s: Service :: Place(s) < n ==> named.Of(s) == Reference(s, bundle.digests.Of(s)) && named.Of(s) in store
  }

  lemma NamedNext(named: Images, bundle: Bundle, before: map<string, string>, store: map<string, string>, n: nat)
    requires n < 3 && NamedUpTo(named, bundle, before, n) && before.Keys <= store.Keys
    requires Reference(ORDER[n], bundle.digests.Of(ORDER[n])) in store
    ensures NamedUpTo(named.With(ORDER[n], Reference(ORDER[n], bundle.digests.Of(ORDER[n]))), bundle, store, n + 1)
  {
    hide Reference;
    assert forall name :: name in before ==> name in before.Keys;
  }

  lemma NamedIsTarget(named: Images, bundle: Bundle, store: map<string, string>)
    requires NamedUpTo(named, bundle, store, 3)
    ensures named == Target(bundle) && Held(named, store)
  {
    hide Reference;
    assert named.Of(RouteWorker) == named.worker && named.Of(CloudServer) == named.server;
    assert named.Of(AgentRunner) == named.runner;
  }

  lemma ApprovedOne(bundle: Bundle, s: Service)
    ensures Approved(bundle) ==> bundle.tags.Of(s) in bundle.archive(s)
                                 && bundle.archive(s)[bundle.tags.Of(s)] == bundle.digests.Of(s)
  {
  }

  lemma HonestOne(bundle: Bundle, s: Service)
    ensures HonestArchives(bundle) ==> Honest(bundle.archive(s))
  {
  }

  lemma PassedEarlier(log: seq<Entry>, from: nat, earlier: nat, command: Command)
    requires earlier <= from && Passed(log, from, command)
    ensures Passed(log, earlier, command)
  {
  }

  ghost predicate HonestArchives(bundle: Bundle) {
    forall s: Service :: Honest(bundle.archive(s))
  }

  /** The archives hold what the bundle approves. */
  ghost predicate Approved(bundle: Bundle) {
    forall s: Service ::
      bundle.tags.Of(s) in bundle.archive(s) && bundle.archive(s)[bundle.tags.Of(s)] == bundle.digests.Of(s)
  }

  /** Every Deployment exists, and its image has a digest. */
  ghost predicate Resolvable(deployed: map<Service, string>, store: map<string, string>) {
    forall s: Service :: s in deployed && Canonical(deployed[s]) in store
  }

  /** The images are in the store under the digests. */
  ghost predicate Pinned(images: Images, digests: Images, store: map<string, string>) {
    forall s: Service :: images.Of(s) in store && store[images.Of(s)] == digests.Of(s)
  }

  lemma TargetIsPinned(bundle: Bundle, store: map<string, string>)
    requires Held(Target(bundle), store) && Honest(store)
    ensures Pinned(Target(bundle), bundle.digests, store)
  {
    forall s: Service
      ensures store[Target(bundle).Of(s)] == bundle.digests.Of(s)
    {
      assert Target(bundle).Of(s) == Reference(s, bundle.digests.Of(s));
    }
  }

  lemma StillHeld(images: Images, before: map<string, string>, after: map<string, string>)
    requires Held(images, before) && before.Keys <= after.Keys
    ensures Held(images, after)
  {
    assert forall s: Service :: images.Of(s) in before.Keys;
  }

  // ----- a deployment -----

  datatype Compatibility = BackwardCompatible | ForwardOnly

  datatype Stage = ArtifactVerification | BackupVerification | CapturingPrevious | Importing | Rollout | Complete

  datatype Rollback = NotAttempted | RestoredAndVerified | RestoreFailed | ForwardFixRequired

  datatype Record = Record(success: bool, rollback: Rollback, stage: Stage, previous: Option<Images>, operatorAction: bool)

  /** The checks of the bundle and of the backup, which `auto` makes first. */
  method VerifyInputs(m: Machine, auto: bool) returns (ok: bool, stage: Stage)
    requires m.Valid()
    modifies m`clock, m`log
    ensures m.Valid() && Continues(old(m.log), m.log) && Still(m.log, |old(m.log)|, m.Now())
    ensures ok ==> Passed(m.log, |old(m.log)|, VerifyBundle) && Passed(m.log, |old(m.log)|, VerifyBackup)
    ensures ok && auto ==> Passed(m.log, |old(m.log)|, CreateBackup)
    ensures stage == ArtifactVerification || stage == BackupVerification
    ensures !ok ==> Failed(m.log, |old(m.log)|)
    ensures Reliable(m.faults) ==> ok
  {
    hide Machine.Valid, Failed;
    ghost var n := |m.log|;
    stage := ArtifactVerification;
    ok := m.Check(VerifyBundle);
    assert m.log[n].command == VerifyBundle;
    if !ok {
      LastFailed(m.log, |old(m.log)|);
      return;
    }
    stage := BackupVerification;
    if auto {
      ok := m.Check(CreateBackup);
      assert m.log[n + 1].command == CreateBackup;
      if !ok {
        LastFailed(m.log, |old(m.log)|);
        return;
      }
    }
    ok := m.Check(VerifyBackup);
    assert m.log[n].command == VerifyBundle && m.log[|m.log| - 1].command == VerifyBackup;
    assert auto ==> m.log[n + 1].command == CreateBackup;
    if !ok {
      LastFailed(m.log, |old(m.log)|);
    }
  }

  /** The body of the try block up to the first change of a Deployment. */
  method Prepare(m: Machine, bundle: Bundle, auto: bool) returns (ready: bool, record: Record)
    requires m.Valid()
    modifies m`clock, m`log, m`store
    ensures m.Valid() && Continues(old(m.log), m.log) && Still(m.log, |old(m.log)|, m.Now())
    ensures ready <==> record.stage == Rollout
    ensures record.stage != Complete && record.rollback == NotAttempted && !record.success
    ensures ready ==> Checked(m.log, |old(m.log)|, auto)
    ensures ready ==> record.previous.Some? && !record.operatorAction
    ensures ready ==> Held(record.previous.value, m.store) && Held(Target(bundle), m.store)
    ensures ready && Honest(old(m.store)) && HonestArchives(bundle) ==>
              Honest(m.store) && Pinned(Target(bundle), bundle.digests, m.store)
    ensures record.previous.Some? ==> IsPrevious(record.previous.value, m.deployed, old(m.store))
    ensures record.operatorAction ==> m.store == old(m.store)
    ensures !ready ==> Failed(m.log, |old(m.log)|) || !Resolvable(m.deployed, old(m.store)) || !Approved(bundle)
    ensures Reliable(m.faults) && Resolvable(m.deployed, old(m.store)) && Approved(bundle) ==> ready
  {
    hide IsPrevious, Held, Honest, HonestArchives, Pinned, Reliable, Approved, Passed, Failed, Resolvable;
    ready := false;
    var ok, stage := VerifyInputs(m, auto);
    record := Record(false, NotAttempted, stage, None, false);
    if !ok {
      return;
    }
    ghost var checked := m.log;
    record := record.(stage := CapturingPrevious);
    var capture := CapturePrevious(m);
    if !capture.Captured? {
      if Failed(m.log, |checked|) {
        FailedEarlier(m.log, |checked|, |old(m.log)|);
      }
      record := record.(operatorAction := capture.MissingDeployment?);
      return;
    }
    record := record.(previous := Some(capture.images), stage := Importing);
    ghost var captured, stored := m.log, m.store;
    var images := ImportApproved(m, bundle);
    StillHeld(capture.images, stored, m.store);
    if images.None? {
      if Failed(m.log, |captured|) {
        FailedEarlier(m.log, |captured|, |old(m.log)|);
      }
      return;
    }
    if Honest(m.store) {
      TargetIsPinned(bundle, m.store);
    }
    InputsChecked(checked, captured, m.log, |old(m.log)|, auto);
    record := record.(stage := Rollout);
    ready := true;
  }

  lemma InputsChecked(checked: seq<Entry>, captured: seq<Entry>, log: seq<Entry>, from: nat, auto: bool)
    requires from <= |captured| && checked <= captured <= log
    requires Passed(checked, from, VerifyBundle) && Passed(checked, from, VerifyBackup)
    requires auto ==> Passed(checked, from, CreateBackup)
    requires forall s: Service :: Passed(log, |captured|, Command.ImportImages(s))
    ensures Checked(log, from, auto)
  {
    hide Passed;
    PassedGrows(checked, log, from, VerifyBundle);
    PassedGrows(checked, log, from, VerifyBackup);
    if auto {
      PassedGrows(checked, log, from, CreateBackup);
    }
    forall s: Service
      ensures Passed(log, from, Command.ImportImages(s))
    {
      PassedEarlier(log, |captured|, from, Command.ImportImages(s));
    }
  }

  /** The body of the try block; `error` says that it raised. */
  method Promote(m: Machine, bundle: Bundle, auto: bool) returns (error: bool, applied: bool, record: Record)
    requires m.Valid()
    modifies m`clock, m`log, m`store, m`deployed, m`serving
    ensures m.Valid() && Continues(old(m.log), m.log)
    ensures applied <==> record.stage == Rollout || record.stage == Complete
    ensures record.rollback == NotAttempted && (record.success <==> record.stage == Complete)
    ensures !error ==> record.stage == Complete && Passed(m.log, |old(m.log)|, WriteCurrent)
    ensures applied ==> record.previous.Some? && !record.operatorAction && Checked(m.log, |old(m.log)|, auto)
    ensures applied ==> Held(record.previous.value, m.store) && Held(Target(bundle), m.store)
    ensures applied && Honest(old(m.store)) && HonestArchives(bundle) ==> Pinned(Target(bundle), bundle.digests, m.store)
    ensures record.previous.Some? ==> IsPrevious(record.previous.value, old(m.deployed), old(m.store))
    ensures !applied ==> m.Now() == old(m.Now()) && Still(m.log, |old(m.log)|, m.Now())
    ensures GuardedChanges(m.log, |old(m.log)|, old(m.Now()), auto)
    ensures applied && Ordered(old(m.Now()), Target(bundle), record.previous.value) ==>
              Ordered(m.Now(), Target(bundle), record.previous.value)
              && AllOrdered(m.log, |old(m.log)|, Target(bundle), record.previous.value)
    ensures record.stage == Complete ==> AllRun(m.Now(), Target(bundle)) && Passed(m.log, |old(m.log)|, ProbeHealth)
    ensures OldOr(m.Now(), old(m.Now()), Target(bundle)) && m.deployed.Keys == old(m.deployed).Keys
    ensures record.operatorAction ==> m.store == old(m.store)
    ensures Reliable(m.faults) && CanSet(m.faults, Target(bundle)) ==>
              Resolvable(old(m.deployed), old(m.store)) && Approved(bundle) ==> record.stage == Complete
    ensures error ==> Failed(m.log, |old(m.log)|) || !Resolvable(old(m.deployed), old(m.store)) || !Approved(bundle)
    ensures record.stage == Complete && AllWork(m.faults) ==> !error
  {
    hide IsPrevious, Ordered, AllOrdered, AllRun, OldOr, Still, Held, Honest, HonestArchives, Pinned, Approved, Reliable;
    hide Checked, GuardedChanges, Resolvable, AllDeployed, CanSet, Fails, Failed;
    var ready;
    ready, record := Prepare(m, bundle, auto);
    error, applied := true, ready;
    OldIsOld(m.Now(), Target(bundle));
    StillGuarded(m.log, |old(m.log)|, m.Now(), auto);
    if !ready {
      return;
    }
    ghost var prepared, previous := m.log, record.previous.value;
    StillOrdered(prepared, |old(m.log)|, m.Now(), Target(bundle), previous);
    AvailableIsDeployed(old(m.deployed), old(m.store));
    var complete;
    error, complete := RollOut(m, Target(bundle), previous);
    if complete {
      record := record.(success := true, stage := Complete);
    }
    OrderedTwice(prepared, |old(m.log)|, m.log, Target(bundle), previous);
    GuardedGrows(prepared, m.log, |old(m.log)|, old(m.Now()), auto);
    CheckedGrows(prepared, m.log, |old(m.log)|, auto);
    if error {
      FailsIsFailed(m.log, |prepared|);
      FailedEarlier(m.log, |prepared|, |old(m.log)|);
    }
    if complete {
      PassedEarlier(m.log, |prepared|, |old(m.log)|, ProbeHealth);
    }
    if !error {
      PassedEarlier(m.log, |prepared|, |old(m.log)|, WriteCurrent);
    }
  }

  /** The part of the try block that changes Deployments. */
  method RollOut(m: Machine, images: Images, ghost previous: Images) returns (error: bool, complete: bool)
    requires m.Valid()
    modifies m`clock, m`log, m`deployed, m`serving
    ensures m.Valid() && Continues(old(m.log), m.log)
    ensures !error ==> complete && Passed(m.log, |old(m.log)|, WriteCurrent)
    ensures complete ==> Passed(m.log, |old(m.log)|, ProbeHealth)
    ensures Ordered(old(m.Now()), images, previous) ==>
              Ordered(m.Now(), images, previous) && AllOrdered(m.log, |old(m.log)|, images, previous)
    ensures complete ==> AllRun(m.Now(), images)
    ensures OldOr(m.Now(), old(m.Now()), images) && m.deployed.Keys == old(m.deployed).Keys
    ensures error <==> Fails(m.log, |old(m.log)|)
    ensures Reliable(m.faults) && CanSet(m.faults, images) && AllDeployed(old(m.deployed)) ==> complete
    ensures complete && AllWork(m.faults) ==> !error
  {
    hide Ordered, AllOrdered, AllRun, OldOr, Still, Reliable, AllDeployed, CanSet, Fails, Unprobed, Passed;
    error, complete := true, false;
    var ok := ApplyImages(m, images, false, images, previous);
    if !ok {
      return;
    }
    ghost var before := m.log;
    ok := VerifyRunning(m, images);
    StillOrdered(m.log, |before|, m.Now(), images, previous);
    OrderedTwice(before, |old(m.log)|, m.log, images, previous);
    FailsJoin(before, m.log, |old(m.log)|);
    if !ok {
      return;
    }
    complete := true;
    before := m.log;
    LastPassed(before);
    PassedEarlier(before, |before| - 1, |old(m.log)|, ProbeHealth);
    ok := m.Check(WriteCurrent);
    OneEntry(m.log);
    FailsThenWrite(before, m.log, |old(m.log)|);
    if ok {
      LastPassed(m.log);
      PassedEarlier(m.log, |m.log| - 1, |old(m.log)|, WriteCurrent);
    }
    PassedGrows(before, m.log, |old(m.log)|, ProbeHealth);
    OneMoreState(before, m.log, m.Now(), images, previous);
    OrderedTwice(before, |old(m.log)|, m.log, images, previous);
    error := !ok;
  }

  /** A command without a probe behind a stretch that got its answer. */
  lemma FailsThenWrite(before: seq<Entry>, log: seq<Entry>, from: nat)
    requires from <= |before| && before <= log && !Fails(before, from) && Unprobed(log, |before|)
    ensures Fails(log, from) <==> Fails(log, |before|)
  {
    BrokenJoin(before, log, from);
    UnansweredBefore(before, log, from);
    UnansweredBefore(log, log, |before|);
    hide Broken;
  }

  lemma UnansweredBefore(before: seq<Entry>, log: seq<Entry>, from: nat)
    requires before <= log && Unprobed(log, |before|)
    ensures Unanswered(log, from) ==> Unanswered(before, from)
  {
    assert forall k :: 0 <= k < |before| ==> before[k] == log[k];
    if Unanswered(log, from) {
      var k :| from <= k < |log| && log[k].command.ProbeHealth?;
      assert before[k].command.ProbeHealth?;
    }
  }

  lemma OldIsOld(now: Snapshot, images: Images)
    ensures OldOr(now, now, images)
  {
  }

  lemma StillGuarded(log: seq<Entry>, from: nat, now: Snapshot, auto: bool)
    ensures Still(log, from, now) ==> GuardedChanges(log, from, now, auto)
  {
  }

  lemma AvailableIsDeployed(deployed: map<Service, string>, store: map<string, string>)
    ensures Resolvable(deployed, store) ==> AllDeployed(deployed)
  {
  }

  lemma OneMoreState(before: seq<Entry>, after: seq<Entry>, now: Snapshot, target: Images, previous: Images)
    requires before <= after && |after| == |before| + 1 && after[|before|].after == now
    ensures Ordered(now, target, previous) ==> AllOrdered(after, |before|, target, previous)
    ensures Still(after, |before|, now)
  {
  }

  lemma OrderedTwice(before: seq<Entry>, from: nat, after: seq<Entry>, target: Images, previous: Images)
    requires from <= |before| && before <= after
    ensures AllOrdered(before, from, target, previous) && AllOrdered(after, |before|, target, previous) ==>
              AllOrdered(after, from, target, previous)
  {
  }

  lemma StillOrdered(log: seq<Entry>, from: nat, now: Snapshot, target: Images, previous: Images)
    ensures Still(log, from, now) && Ordered(now, target, previous) ==> AllOrdered(log, from, target, previous)
  {
  }

  /** What follows the attempt to write the failure down: the restore, or no further change. */
  ghost predicate Follows(log: seq<Entry>, w: nat, previous: Option<Images>, restores: bool) {
    if restores then
      previous.Some? && w + 1 < |log| && log[w + 1].command == Command.SetImage(AgentRunner, previous.value.runner)
    else forall k :: w < k < |log| ==> !log[k].command.SetImage?
  }

  /** A failure of the rollout or after it, which a backward-compatible schema allows to restore. */
  predicate Restorable(record: Record, compatibility: Compatibility) {
    (record.stage == Rollout || record.stage == Complete) && compatibility == BackwardCompatible
  }

  /** What becomes of the rollback once the failure was written down or not. */
  function RollbackOf(record: Record, compatibility: Compatibility, written: bool, fails: bool): Rollback {
    if !written || (record.stage != Rollout && record.stage != Complete) then NotAttempted
    else if compatibility == ForwardOnly then ForwardFixRequired
    else if fails then RestoreFailed
    else RestoredAndVerified
  }

  /**
   * The failure written down at w is followed by the restore exactly if that worked and a restore is
   * due; the restore then fails exactly by a command of its own.
   */
  ghost predicate FailureHandled(log: seq<Entry>, w: nat, record: Record, compatibility: Compatibility)
    requires w < |log|
  {
    && Follows(log, w, record.previous, log[w].worked && Restorable(record, compatibility))
    && record.rollback == RollbackOf(record, compatibility, log[w].worked, Fails(log, w + 1))
    && (record.rollback == RestoredAndVerified ==> Passed(log, w + 1, ProbeHealth))
  }

  /** The except clause: writes the failure down and, if that works, restores the previous images. */
  method AfterFailure(m: Machine, applied: bool, record: Record, compatibility: Compatibility, ghost target: Images)
    returns (r: Record)
    requires m.Valid() && record.rollback == NotAttempted
    requires applied <==> record.stage == Rollout || record.stage == Complete
    requires applied ==> record.previous.Some?
    modifies m`clock, m`log, m`deployed, m`serving
    ensures m.Valid() && old(m.log) <= m.log && |old(m.log)| < |m.log| && m.log[|old(m.log)|].command == WriteFailure
    ensures Continues(m.log[..|old(m.log)| + 1], m.log)
    ensures r == record.(rollback := r.rollback)
    ensures FailureHandled(m.log, |old(m.log)|, r, compatibility)
    ensures !applied ==> r.rollback == NotAttempted
    ensures compatibility == ForwardOnly ==> r.rollback == NotAttempted || r.rollback == ForwardFixRequired
    ensures record.previous.Some? && Ordered(old(m.Now()), target, record.previous.value) ==>
              Ordered(m.Now(), target, record.previous.value)
              && AllOrdered(m.log, |old(m.log)|, target, record.previous.value)
    ensures r.rollback == RestoredAndVerified ==> AllRun(m.Now(), record.previous.value)
    ensures r.rollback == NotAttempted || r.rollback == ForwardFixRequired ==>
              m.Now() == old(m.Now()) && Still(m.log, |old(m.log)|, m.Now())
    ensures Reliable(m.faults) && AllDeployed(old(m.deployed)) ==>
              record.previous.Some? && CanSet(m.faults, record.previous.value) ==> r.rollback != RestoreFailed
  {
    hide Ordered, AllOrdered, AllRun, Reliable, AllDeployed, CanSet, Fails, Passed;
    r := record;
    ghost var before := m.log;
    var written := m.Check(WriteFailure);
    ghost var logged := m.log;
    assert logged == m.log[..|before| + 1];
    if record.previous.Some? {
      OneMoreState(before, logged, m.Now(), target, record.previous.value);
    }
    if written && applied {
      if compatibility == BackwardCompatible {
        var restored := Restore(m, record.previous.value, target);
        OrderedTwice(logged, |before|, m.log, target, record.previous.value);
        assert logged == m.log[..|before| + 1];
        if restored {
          LastPassed(m.log);
          PassedEarlier(m.log, |m.log| - 1, |logged|, ProbeHealth);
        }
        r := r.(rollback := if restored then RestoredAndVerified else RestoreFailed);
      } else {
        r := r.(rollback := ForwardFixRequired);
      }
    }
  }

  ghost predicate OnlyOutcome(log: seq<Entry>, from: nat) {
    forall k :: from <= k < |log| ==> log[k].command.WriteRecord? || log[k].command.WriteResult?
  }

  /** The finally clause: writes the record and the result. */
  method WriteOutcome(m: Machine) returns (written: bool)
    requires m.Valid()
    modifies m`clock, m`log
    ensures m.Valid() && Continues(old(m.log), m.log) && Still(m.log, |old(m.log)|, m.Now())
    ensures OnlyOutcome(m.log, |old(m.log)|)
    ensures |m.log| > |old(m.log)| && m.log[|old(m.log)|].command == WriteRecord
    ensures written ==> Passed(m.log, |old(m.log)|, WriteRecord) && Passed(m.log, |old(m.log)|, WriteResult)
    ensures AllWork(m.faults) ==> written
  {
    ghost var n := |m.log|;
    written := m.Check(WriteRecord);
    assert m.log[n].command == WriteRecord;
    if written {
      written := m.Check(WriteResult);
      assert m.log[n].command == WriteRecord && m.log[n + 1].command == WriteResult;
    }
  }

  /** The failure is written down at most once, right after the try block. */
  lemma OneFailure(start: seq<Entry>, promoted: seq<Entry>, handled: seq<Entry>, log: seq<Entry>, error: bool, w: nat)
    requires Continues(start, promoted) && promoted <= handled && Continues(handled, log)
    requires error ==> |promoted| < |handled| && handled[|promoted|].command == WriteFailure
    requires error ==> Continues(handled[..|promoted| + 1], handled)
    requires !error ==> handled == promoted
    ensures |start| <= w < |log| && log[w].command == WriteFailure <==> error && w == |promoted|
  {
  }

  lemma HandledGrows(before: seq<Entry>, log: seq<Entry>, w: nat, record: Record, compatibility: Compatibility)
    requires w < |before| && before <= log && FailureHandled(before, w, record, compatibility)
    requires OnlyOutcome(log, |before|)
    ensures FailureHandled(log, w, record, compatibility)
  {
    assert forall k :: w <= k < |before| ==> before[k] == log[k];
    OutcomeFails(before, log, w + 1);
    if Passed(before, w + 1, ProbeHealth) {
      PassedGrows(before, log, w + 1, ProbeHealth);
    }
    hide Fails, Passed;
  }

  /** Writing the outcome makes no restore fail. */
  lemma OutcomeFails(before: seq<Entry>, log: seq<Entry>, from: nat)
    requires from <= |before| && before <= log && OnlyOutcome(log, |before|)
    ensures Fails(log, from) <==> Fails(before, from)
  {
    BrokenJoin(before, log, from);
    hide Broken;
    assert forall k :: from <= k < |before| ==> before[k] == log[k];
    assert Unanswered(log, from) <==> Unanswered(before, from) by {
      if Unanswered(log, from) {
        var k :| from <= k < |log| && log[k].command.ProbeHealth?;
        assert before[k].command.ProbeHealth?;
      }
      if Unanswered(before, from) {
        var k :| from <= k < |before| && before[k].command.ProbeHealth?;
        assert log[k].command.ProbeHealth?;
      }
    }
    assert !Broken(log, |before|) by { NoneBroken(log, |before|); }
  }

  lemma NoneBroken(log: seq<Entry>, from: nat)
    requires OnlyOutcome(log, from)
    ensures !Broken(log, from)
  {
  }

  lemma StillTwice(before: seq<Entry>, from: nat, log: seq<Entry>, now: Snapshot)
    requires from <= |before| && before <= log && Still(before, from, now) && Still(log, |before|, now)
    ensures Still(log, from, now)
  {
  }

  /**
   * The whole deployment; `completed` is a normal return. In every state the services on new
   * images stand in front of those on old ones; see Ordered. A failed rollout is restored exactly
   * when writing the failure down worked, because that call stands in front of the restore, and no
   * command of the restore fails, and the health address answers one of its probes.
   */
  method Deploy(m: Machine, bundle: Bundle, auto: bool, compatibility: Compatibility)
    returns (completed: bool, error: bool, record: Record)
    requires m.Valid()
    modifies m`clock, m`log, m`store, m`deployed, m`serving
    ensures m.Valid() && old(m.log) <= m.log
    ensures record.previous.Some? ==> IsPrevious(record.previous.value, old(m.deployed), old(m.store))
    ensures record.previous.Some? && Ordered(old(m.Now()), Target(bundle), record.previous.value) ==>
              AllOrdered(m.log, |old(m.log)|, Target(bundle), record.previous.value)
    ensures GuardedChanges(m.log, |old(m.log)|, old(m.Now()), auto)
    ensures record.stage != Rollout && record.stage != Complete ==>
              m.Now() == old(m.Now()) && Still(m.log, |old(m.log)|, m.Now()) && record.rollback == NotAttempted
    ensures record.operatorAction ==> m.store == old(m.store)
    ensures record.stage == Rollout || record.stage == Complete ==>
              record.previous.Some? && Held(record.previous.value, m.store) && Held(Target(bundle), m.store)
    ensures (record.stage == Rollout || record.stage == Complete) && Honest(old(m.store)) && HonestArchives(bundle) ==>
              Pinned(Target(bundle), bundle.digests, m.store)
    ensures completed ==> !error && record.success && AllRun(m.Now(), Target(bundle))
    ensures !error ==> record.stage == Complete && record.rollback == NotAttempted
    ensures !error ==> Passed(m.log, |old(m.log)|, WriteCurrent)
    ensures record.stage == Complete ==> Passed(m.log, |old(m.log)|, ProbeHealth)
    ensures exists k :: |old(m.log)| <= k < |m.log| && m.log[k].command == WriteRecord
    ensures completed ==> Passed(m.log, |old(m.log)|, WriteRecord) && Passed(m.log, |old(m.log)|, WriteResult)
    ensures record.rollback == RestoredAndVerified ==> record.previous.Some? && AllRun(m.Now(), record.previous.value)
    ensures compatibility == ForwardOnly || record.rollback == NotAttempted ==> OldOr(m.Now(), old(m.Now()), Target(bundle))
    ensures record.rollback == NotAttempted && record.stage == Complete ==> AllRun(m.Now(), Target(bundle))
    // the failure record and the restore
    ensures error <==> exists w :: |old(m.log)| <= w < |m.log| && m.log[w].command == WriteFailure
    ensures forall w :: |old(m.log)| <= w < |m.log| && m.log[w].command == WriteFailure ==>
              FailureHandled(m.log, w, record, compatibility)
    ensures forall w :: |old(m.log)| <= w < |m.log| && m.log[w].command == WriteFailure ==>
              Failed(m.log[..w], |old(m.log)|) || !Resolvable(old(m.deployed), old(m.store)) || !Approved(bundle)
    // commands that work
    ensures Reliable(m.faults) && CanSet(m.faults, Target(bundle)) ==>
              Resolvable(old(m.deployed), old(m.store)) && Approved(bundle) ==> record.stage == Complete
    ensures Reliable(m.faults) && Resolvable(old(m.deployed), old(m.store)) ==>
              record.previous.Some? && CanSet(m.faults, record.previous.value) ==> record.rollback != RestoreFailed
    ensures AllWork(m.faults) && Resolvable(old(m.deployed), old(m.store)) && Approved(bundle) ==> completed
  {
    hide *;
    var applied;
    error, applied, record := Promote(m, bundle, auto);
    ghost var promoted := m.log;
    AllWorkIsReliable(m.faults, Target(bundle));
    AvailableIsDeployed(old(m.deployed), old(m.store));
    if error {
      SameKeys(old(m.deployed), m.deployed);
      record := AfterFailure(m, applied, record, compatibility, Target(bundle));
    }
    ghost var handled := m.log;
    var written := WriteOutcome(m);
    completed := !error && written;
    ContinuesIsPrefix(old(m.log), promoted);
    ContinuesIsPrefix(handled, m.log);
    ghost var from := |old(m.log)|;
    FailureInLog(old(m.log), promoted, handled, m.log, record, compatibility, error);
    assert m.log[..|promoted|] == promoted;
    if applied {
      GuardedGrows(promoted, m.log, from, old(m.Now()), auto);
    } else {
      StillTwice(promoted, from, handled, m.Now());
      StillTwice(handled, from, m.log, m.Now());
      StillGuarded(m.log, from, m.Now(), auto);
    }
    if record.previous.Some? {
      StaysOrdered(promoted, handled, m.log, from, m.Now(), Target(bundle), record.previous.value);
    }
    if !error {
      PassedGrows(promoted, m.log, from, WriteCurrent);
    }
    if record.stage == Complete {
      PassedGrows(promoted, m.log, from, ProbeHealth);
    }
    assert m.log[|handled|].command == WriteRecord;
    if written {
      PassedEarlier(m.log, |handled|, from, WriteRecord);
      PassedEarlier(m.log, |handled|, from, WriteResult);
    }
  }

  /** Order kept by the three parts of a deployment is kept throughout. */
  lemma StaysOrdered(promoted: seq<Entry>, handled: seq<Entry>, log: seq<Entry>, from: nat, now: Snapshot,
                     target: Images, previous: Images)
    requires from <= |promoted| && promoted <= handled <= log && Still(log, |handled|, now)
    ensures Still(log, from, now) && Ordered(now, target, previous) ==> AllOrdered(log, from, target, previous)
    ensures Ordered(now, target, previous) && AllOrdered(promoted, from, target, previous) ==>
              handled == promoted || AllOrdered(handled, |promoted|, target, previous) ==>
                AllOrdered(log, from, target, previous)
  {
    hide Ordered, AllOrdered, Still;
    StillOrdered(log, from, now, target, previous);
    StillOrdered(log, |handled|, now, target, previous);
    OrderedTwice(promoted, from, handled, target, previous);
    OrderedTwice(handled, from, log, target, previous);
  }

  /** The one failure record of a deployment, and what follows it. */
  lemma FailureInLog(start: seq<Entry>, promoted: seq<Entry>, handled: seq<Entry>, log: seq<Entry>,
                     record: Record, compatibility: Compatibility, error: bool)
    requires Continues(start, promoted) && promoted <= handled && Continues(handled, log)
    requires error ==> |promoted| < |handled| && handled[|promoted|].command == WriteFailure
    requires error ==> Continues(handled[..|promoted| + 1], handled)
    requires error ==> FailureHandled(handled, |promoted|, record, compatibility)
    requires !error ==> handled == promoted
    requires OnlyOutcome(log, |handled|)
    ensures error <==> exists w :: |start| <= w < |log| && log[w].command == WriteFailure
    ensures forall w :: |start| <= w < |log| && log[w].command == WriteFailure ==>
              w == |promoted| && FailureHandled(log, w, record, compatibility)
  {
    hide FailureHandled, Continues;
    ContinuesIsPrefix(start, promoted);
    ContinuesIsPrefix(handled, log);
    forall w: nat
      ensures |start| <= w < |log| && log[w].command == WriteFailure <==> error && w == |promoted|
    {
      OneFailure(start, promoted, handled, log, error, w);
    }
    if error {
      HandledGrows(handled, log, |promoted|, record, compatibility);
      assert log[|promoted|].command == WriteFailure;
    }
  }

  lemma AllWorkIsReliable(faults: Faults, images: Images)
    ensures AllWork(faults) ==> Reliable(faults) && CanSet(faults, images)
  {
  }

  lemma SameKeys(before: map<Service, string>, after: map<Service, string>)
    requires before.Keys == after.Keys
    ensures AllDeployed(before) ==> AllDeployed(after)
  {
    assert forall s: Service :: s in before ==> s in before.Keys;
  }

  /** Sets the previous images in reverse order and verifies them. */
  method Restore(m: Machine, previous: Images, ghost target: Images) returns (ok: bool)
    requires m.Valid()
    modifies m`clock, m`log, m`deployed, m`serving
    ensures m.Valid() && Continues(old(m.log), m.log)
    ensures |m.log| > |old(m.log)|
    ensures m.log[|old(m.log)|].command == Command.SetImage(AgentRunner, previous.runner)
    ensures Ordered(old(m.Now()), target, previous) ==>
              Ordered(m.Now(), target, previous) && AllOrdered(m.log, |old(m.log)|, target, previous)
    ensures ok ==> AllRun(m.Now(), previous) && m.log[|m.log| - 1] == Entry(ProbeHealth, true, m.Now())
    ensures ok <==> !Fails(m.log, |old(m.log)|)
    ensures Reliable(m.faults) && CanSet(m.faults, previous) && AllDeployed(old(m.deployed)) ==> ok
  {
    hide Ordered, AllOrdered, AllRun, Still, Reliable, AllDeployed, CanSet, Fails, Unprobed;
    ok := ApplyImages(m, previous, true, target, previous);
    if ok {
      ghost var before := m.log;
      ok := VerifyRunning(m, previous);
      FailsJoin(before, m.log, |old(m.log)|);
      StillOrdered(m.log, |before|, m.Now(), target, previous);
      OrderedTwice(before, |old(m.log)|, m.log, target, previous);
    }
  }

  /** A settled cluster where no changed service runs its new image yet is in order. */
  lemma SettledIsOrdered(now: Snapshot, target: Images, previous: Images)
    requires forall s: Service :: s in now.deployed && RunsOnly(now, s, now.deployed[s])
    requires forall s: Service :: s in now.deployed && now.deployed[s] == target.Of(s) ==> target.Of(s) == previous.Of(s)
    ensures Ordered(now, target, previous)
  {
    forall a: Service, b: Service | Place(a) < Place(b) && target.Of(b) != previous.Of(b)
      ensures PairOrdered(now, target, a, b)
    {
      assert RunsOnly(now, b, now.deployed[b]);
    }
  }

  // ----- a failure that is not restored -----

  const OLD_DIGEST := "sha256:0"
  const NEW_DIGEST := "sha256:1"

  function OldImage(s: Service): string {
    "old/" + ServiceName(s)
  }

  function NewTag(s: Service): string {
    "new/" + ServiceName(s)
  }

  const NEW_BUNDLE := Bundle(
    Images(NewTag(RouteWorker), NewTag(CloudServer), NewTag(AgentRunner)), Images(NEW_DIGEST, NEW_DIGEST, NEW_DIGEST),
    s => map[NewTag(s) := NEW_DIGEST])

  /** All is well, but no file can be written. */
  function FullDisk(t: nat, c: Command): Fault {
    if IsWrite(c) then FailsBefore else Works
  }

  /** All is well, but current.json cannot be written, and the old images can no longer be set. */
  function OldImagesGone(t: nat, c: Command): Fault {
    if c.WriteCurrent? || (c.SetImage? && c.image == Reference(c.service, OLD_DIGEST)) then FailsBefore else Works
  }

  lemma OldIsCanonical(s: Service)
    ensures Canonical(OldImage(s)) == OldImage(s)
  {
    assert OldImage(s)[3] == '/';
  }

  lemma NewIsApproved()
    ensures Approved(NEW_BUNDLE)
  {
    forall s: Service
      ensures NEW_BUNDLE.tags.Of(s) == NewTag(s) && NEW_BUNDLE.digests.Of(s) == NEW_DIGEST
    {
    }
  }

  lemma FullDiskRefuses(m: Machine, from: nat)
    requires m.Valid() && m.faults == FullDisk
    ensures Reliable(m.faults) && CanSet(m.faults, Target(NEW_BUNDLE)) && !Passed(m.log, from, WriteCurrent)
    ensures forall k :: 0 <= k < |m.log| && m.log[k].command == WriteFailure ==> !m.log[k].worked
  {
  }

  lemma OldImagesRefused(m: Machine, from: nat)
    requires m.Valid() && m.faults == OldImagesGone
    ensures Reliable(m.faults) && CanSet(m.faults, Target(NEW_BUNDLE)) && !Passed(m.log, from, WriteCurrent)
    ensures forall k :: 0 <= k < |m.log| && m.log[k].command == WriteFailure ==> m.log[k].worked
    ensures forall k :: 0 <= k < |m.log| && m.log[k].command == Command.SetImage(AgentRunner, Reference(AgentRunner, OLD_DIGEST)) ==>
                          !m.log[k].worked
  {
    hide Reference;
    forall t: nat, s: Service
      ensures OldImagesGone(t, Command.SetImage(s, Target(NEW_BUNDLE).Of(s))) == Works
    {
      assert Target(NEW_BUNDLE).Of(s) == Reference(s, NEW_DIGEST);
      if Reference(s, NEW_DIGEST) == Reference(s, OLD_DIGEST) {
        ReferenceInjective(s, NEW_DIGEST, s, OLD_DIGEST);
      }
    }
  }

  ghost predicate RunsOld(deployed: map<Service, string>, store: map<string, string>) {
    forall s: Service :: s in deployed && Canonical(deployed[s]) in store && store[Canonical(deployed[s])] == OLD_DIGEST
  }

  lemma OldIsNotNew(previous: Images, deployed: map<Service, string>, store: map<string, string>)
    requires RunsOld(deployed, store) && IsPrevious(previous, deployed, store)
    ensures previous.worker != Target(NEW_BUNDLE).worker
  {
    hide Reference, Canonical;
    assert previous.Of(RouteWorker) == Reference(RouteWorker, OLD_DIGEST);
    if previous.worker == Target(NEW_BUNDLE).worker {
      ReferenceInjective(RouteWorker, OLD_DIGEST, RouteWorker, NEW_DIGEST);
    }
  }

  /** A machine on old images. */
  method OldMachine(faults: Faults) returns (m: Machine)
    ensures m.Valid() && fresh(m) && m.faults == faults && m.log == []
    ensures RunsOld(m.deployed, m.store) && Resolvable(m.deployed, m.store)
  {
    var deployed := map s: Service | s in {RouteWorker, CloudServer, AgentRunner} :: OldImage(s);
    var serving := map s: Service | s in {RouteWorker, CloudServer, AgentRunner} :: {OldImage(s)};
    var store := map[OldImage(RouteWorker) := OLD_DIGEST, OldImage(CloudServer) := OLD_DIGEST,
                     OldImage(AgentRunner) := OLD_DIGEST];
    forall s: Service
      ensures s in deployed && s in serving && Canonical(deployed[s]) in store && store[Canonical(deployed[s])] == OLD_DIGEST
    {
      OldIsCanonical(s);
    }
    m := new Machine(faults, deployed, serving, store);
  }

  /**
   * A promotion that fails after its rollout, under a schema that allows a restore, and is not
   * restored: the failure could not be written down, and the new images keep running.
   */
  method UnwrittenFailure() returns (m: Machine, error: bool, record: Record)
    ensures m.Valid() && fresh(m) && error
    ensures record.stage == Complete && record.rollback == NotAttempted && record.previous.Some?
    ensures AllRun(m.Now(), Target(NEW_BUNDLE)) && record.previous.value.worker != Target(NEW_BUNDLE).worker
    ensures exists w :: 0 <= w < |m.log| && m.log[w].command == WriteFailure && !m.log[w].worked
  {
    hide IsPrevious, Ordered, AllOrdered, AllRun, OldOr, Still, Held, Target, Honest, HonestArchives, Pinned, Approved;
    hide Reliable, CanSet, GuardedChanges, Resolvable, Passed, AllWork, RunsOld, FullDisk, Follows, Restorable, Fails;
    m := OldMachine(FullDisk);
    ghost var deployed, store := m.deployed, m.store;
    NewIsApproved();
    FullDiskRefuses(m, 0);
    var completed;
    completed, error, record := Deploy(m, NEW_BUNDLE, false, BackwardCompatible);
    FullDiskRefuses(m, 0);
    OldIsNotNew(record.previous.value, deployed, store);
  }

  /** The same failure, written down this time; the restore begins and fails with its first command. */
  method StuckRestore() returns (m: Machine, error: bool, record: Record)
    ensures m.Valid() && fresh(m) && error
    ensures record.stage == Complete && record.rollback == RestoreFailed
    ensures exists w :: 0 <= w < |m.log| && m.log[w].command == WriteFailure && m.log[w].worked
  {
    hide IsPrevious, Ordered, AllOrdered, AllRun, OldOr, Still, Held, Target, Honest, HonestArchives, Pinned, Approved;
    hide Reliable, CanSet, GuardedChanges, Resolvable, Passed, AllWork, RunsOld, OldImagesGone, Fails;
    m := OldMachine(OldImagesGone);
    ghost var deployed, store := m.deployed, m.store;
    NewIsApproved();
    OldImagesRefused(m, 0);
    var completed;
    completed, error, record := Deploy(m, NEW_BUNDLE, false, BackwardCompatible);
    OldImagesRefused(m, 0);
    OldRunner(record.previous.value, deployed, store);
    ghost var w :| 0 <= w < |m.log| && m.log[w].command == WriteFailure;
    BrokenAt(m.log, w + 1);
  }

  lemma OldRunner(previous: Images, deployed: map<Service, string>, store: map<string, string>)
    requires RunsOld(deployed, store) && IsPrevious(previous, deployed, store)
    ensures previous.runner == Reference(AgentRunner, OLD_DIGEST)
  {
    hide Reference, Canonical;
    assert previous.Of(AgentRunner) == Reference(AgentRunner, OLD_DIGEST);
  }

  lemma BrokenAt(log: seq<Entry>, k: nat)
    requires k < |log| && !log[k].worked && EndsWork(log[k].command)
    ensures Fails(log, k)
  {
  }
}
