/**
 * Revalidating a reviewed source while Manager itself changes the restart policies of its containers: what a fence
 * check compares, and why it still passes after any of Manager's own changes.
 */
module FenceReview {
  import opened Basics
  import opened RestartPolicies
  import opened RetiredServices
  import Discovery

  /** What the review fingerprinted, and all Docker says of each container now but for its restart policy. */
  datatype Review = Review(
    fence: bool, ids: seq<int>, fingerprint: seq<Discovery.Form>, inspected: seq<Discovery.Container>)

  function Policies(services: seq<Service>): map<int, Policy> {
    if services == [] then map[] else Policies(services[1..])[services[0].id := services[0].policy]
  }

  lemma {:induction false} NoPolicy(services: seq<Service>, id: int)
    requires forall i | 0 <= i < |services| :: services[i].id != id
    ensures id !in Policies(services)
  {
    if services != [] {
      NoPolicy(services[1..], id);
    }
  }

  lemma {:induction false} PolicyOf(services: seq<Service>, k: nat)
    requires k < |services|
    requires forall i, j | 0 <= i < j < |services| :: services[i].id != services[j].id
    ensures services[k].id in Policies(services) && Policies(services)[services[k].id] == services[k].policy
  {
    if k > 0 {
      PolicyOf(services[1..], k - 1);
    }
  }

  /** The reviewed source, also accepting the retired services' own policies. */
  function Pinned(source: Source, review: Review, services: Option<seq<Service>>): Discovery.Source {
    var retired := if services.Some? then Policies(services.value) else map[];
    Discovery.Source(review.fence, review.ids, source.workers, retired + source.restart, review.fingerprint)
  }

  /** The containers as Docker lists them, with the policies they have by now. */
  function Listing(inspected: seq<Discovery.Container>, containers: map<int, Container>): seq<Discovery.Container> {
    Map(inspected, (c: Discovery.Container) => WithPolicy(c, containers))
  }

  function WithPolicy(c: Discovery.Container, containers: map<int, Container>): Discovery.Container {
    if c.id in containers then c.(restart := containers[c.id].policy) else c
  }

  predicate Revalidated(
    source: Source, review: Review, services: Option<seq<Service>>, containers: map<int, Container>, fencing: bool)
  {
    Discovery.Revalidates(Pinned(source, review, services), Listing(review.inspected, containers), fencing)
  }

  lemma {:induction false} ListedPolicy(inspected: seq<Discovery.Container>, containers: map<int, Container>, id: int)
    ensures Discovery.Lookup(Listing(inspected, containers), id) ==
            match Discovery.Lookup(inspected, id)
            case None => None
            case Some(c) => Some(WithPolicy(c, containers))
  {
    if inspected != [] {
      assert Listing(inspected, containers)[1..] == Listing(inspected[1..], containers);
      ListedPolicy(inspected[1..], containers, id);
    }
  }

  /** From one state to another, only Manager's own changes were made, by fencing, retirement and recovery. */
  ghost predicate OwnSince(
    source: Source, services: Option<seq<Service>>, containers: map<int, Container>,
    services': Option<seq<Service>>, containers': map<int, Container>)
  {
    && WorkersOwn(source, containers, containers')
    && Untouched(containers, containers', Changeable(source, services'))
    && (services.Some? ==> services' == services && forall s | s in services.value :: Safe(s, containers))
    && (services'.Some? ==> forall s | s in services'.value ::
          && Safe(s, containers') && s.id !in source.workers
          && (services.None? ==> s.id in containers && containers[s.id].policy == s.policy))
  }

  ghost predicate WorkersOwn(source: Source, containers: map<int, Container>, containers': map<int, Container>) {
    forall id | id in source.workers :: WorkerOwn(source, containers, containers', id)
  }

  ghost predicate WorkerOwn(
    source: Source, containers: map<int, Container>, containers': map<int, Container>, id: int)
  {
    id in containers && id in source.restart ==>
      id in containers' && OwnPolicy(containers'[id].policy, containers[id].policy, source.restart[id])
  }

  /** The policy is the former one, "no", or the recorded one put back. */
  predicate OwnPolicy(policy: Policy, was: Policy, recorded: Policy) {
    policy == was || policy == NEVER || policy == PutBack(recorded)
  }

  lemma WorkersOwnAfter(
    source: Source, containers: map<int, Container>, between: map<int, Container>, containers': map<int, Container>)
    requires WorkersOwn(source, containers, between) && WorkersOwn(source, between, containers')
    ensures WorkersOwn(source, containers, containers')
  {
    forall id | id in source.workers
      ensures WorkerOwn(source, containers, containers', id)
    {
      assert WorkerOwn(source, containers, between, id) && WorkerOwn(source, between, containers', id);
    }
  }

  /** Changing services, or halting, changes workers as Manager does. */
  lemma OthersOwn(source: Source, containers: map<int, Container>, containers': map<int, Container>)
    requires containers'.Keys == containers.Keys
    requires forall id | id in source.workers && id in containers :: Halting(containers[id], containers'[id])
    ensures WorkersOwn(source, containers, containers')
  {
  }

  ghost function Changeable(source: Source, services: Option<seq<Service>>): set<int> {
    (set id | id in source.workers) + if services.Some? then ServiceIds(services.value) else {}
  }

  /** Every policy that Manager puts back is one that comes back as it was, or as "no". */
  ghost predicate AllLasting(source: Source, services: Option<seq<Service>>) {
    && (forall id | id in source.restart :: Lasting(source.restart[id]))
    && (services.Some? ==> forall s | s in services.value :: Lasting(s.policy))
  }

  ghost predicate DistinctServices(services: Option<seq<Service>>) {
    services.Some? ==> forall i, j | 0 <= i < j < |services.value| :: services.value[i].id != services.value[j].id
  }

  /** What a container is compared as while fencing, given the policy recorded for it, if one is. */
  function Compared(c: Discovery.Container, recorded: Option<Policy>): Option<Discovery.Container> {
    if recorded.None? then Some(c)
    else if c.restart.name != "no" && c.restart != recorded.value then None
    else Some(c.(restart := recorded.value))
  }

  function RecordedPolicy(source: Source, services: Option<seq<Service>>, id: int): Option<Policy> {
    var restart := Pinned(source, Review(false, [], [], []), services).restart;
    if id in restart then Some(restart[id]) else None
  }

  lemma NormalizedIsCompared(
    source: Source, review: Review, services: Option<seq<Service>>, containers: map<int, Container>, id: int)
    ensures Discovery.NormalizedAt(
              Pinned(source, review, services), Listing(review.inspected, containers), true, id) ==
            match Discovery.Lookup(review.inspected, id)
            case None => None
            case Some(c) => Compared(WithPolicy(c, containers), RecordedPolicy(source, services, id))
  {
    ListedPolicy(review.inspected, containers, id);
    Discovery.LookupFinds(review.inspected, id);
  }

  /** A worker, a retired service, or any other container is compared as before. */
  lemma ComparedAsBefore(
    source: Source, services: Option<seq<Service>>, containers: map<int, Container>,
    services': Option<seq<Service>>, containers': map<int, Container>, c: Discovery.Container)
    requires OwnSince(source, services, containers, services', containers') && AllLasting(source, services')
    requires DistinctServices(services') && forall id :: id in source.restart <==> id in source.workers
    ensures var was := Compared(WithPolicy(c, containers), RecordedPolicy(source, services, c.id));
            was.Some? ==> was == Compared(WithPolicy(c, containers'), RecordedPolicy(source, services', c.id))
  {
    if c.id in source.workers {
      assert WorkerOwn(source, containers, containers', c.id);
      LastingIsExact(source.restart[c.id]);
    } else if services'.Some? && c.id in ServiceIds(services'.value) {
      ServiceCompared(source, services, containers, services', containers', c);
    } else if services'.Some? {
      NoPolicy(services'.value, c.id);
    }
  }

  lemma ServiceCompared(
    source: Source, services: Option<seq<Service>>, containers: map<int, Container>,
    services': Option<seq<Service>>, containers': map<int, Container>, c: Discovery.Container)
    requires OwnSince(source, services, containers, services', containers') && AllLasting(source, services')
    requires DistinctServices(services') && forall id :: id in source.restart <==> id in source.workers
    requires services'.Some? && c.id in ServiceIds(services'.value)
    ensures var was := Compared(WithPolicy(c, containers), RecordedPolicy(source, services, c.id));
            was.Some? ==> was == Compared(WithPolicy(c, containers'), RecordedPolicy(source, services', c.id))
  {
    var k :| 0 <= k < |services'.value| && services'.value[k].id == c.id;
    var s := services'.value[k];
    assert s in services'.value && s.id !in source.workers;
    PolicyOf(services'.value, k);
    LastingIsExact(s.policy);
  }

  /** A source that revalidates while fencing still does after any of Manager's own changes. */
  lemma StillRevalidates(
    source: Source, review: Review, services: Option<seq<Service>>, containers: map<int, Container>,
    services': Option<seq<Service>>, containers': map<int, Container>)
    requires OwnSince(source, services, containers, services', containers') && AllLasting(source, services')
    requires DistinctServices(services') && forall id :: id in source.restart <==> id in source.workers
    requires Revalidated(source, review, services, containers, true)
    ensures Revalidated(source, review, services', containers', true)
  {
    var all, all' := Listing(review.inspected, containers), Listing(review.inspected, containers');
    forall id | id in review.ids
      ensures Discovery.NormalizedAt(Pinned(source, review, services'), all', true, id) ==
              Discovery.NormalizedAt(Pinned(source, review, services), all, true, id)
    {
      NormalizedIsCompared(source, review, services, containers, id);
      NormalizedIsCompared(source, review, services', containers', id);
      Discovery.LookupFinds(review.inspected, id);
      var c := Discovery.Lookup(review.inspected, id);
      if c.Some? {
        ComparedAsBefore(source, services, containers, services', containers', c.value);
      }
    }
    Discovery.RevalidatesAlike(Pinned(source, review, services), all, Pinned(source, review, services'), all');
  }

  // What fencing relies on

  /** An answer to revalidation, for the services retired and the containers as they are; `fencing` is the last. */
  type Revalidation = (Option<seq<Service>>, map<int, Container>, bool) -> bool

  /** Manager's own changes never make this revalidation fail. */
  ghost predicate Stable(source: Source, revalidates: Revalidation) {
    forall services, containers, services', containers' ::
      StableAt(source, revalidates, services, containers, services', containers')
  }

  ghost predicate StableAt(
    source: Source, revalidates: Revalidation, services: Option<seq<Service>>, containers: map<int, Container>,
    services': Option<seq<Service>>, containers': map<int, Container>)
  {
    (OwnSince(source, services, containers, services', containers') && AllLasting(source, services') &&
     DistinctServices(services') && revalidates(services, containers, true)) ==>
      revalidates(services', containers', true)
  }

  /** Comparing what Docker lists with the review. */
  function OfDocker(source: Source, review: Review): Revalidation {
    (services: Option<seq<Service>>, containers: map<int, Container>, fencing: bool) =>
      Revalidated(source, review, services, containers, fencing)
  }

  lemma OfDockerIsStable(source: Source, review: Review)
    requires forall id :: id in source.restart <==> id in source.workers
    ensures Stable(source, OfDocker(source, review))
  {
    forall services, containers, services', containers'
      ensures StableAt(source, OfDocker(source, review), services, containers, services', containers')
    {
      if OwnSince(source, services, containers, services', containers') && AllLasting(source, services') &&
         DistinctServices(services') && Revalidated(source, review, services, containers, true)
      {
        StillRevalidates(source, review, services, containers, services', containers');
      }
    }
  }
}
