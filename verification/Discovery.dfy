/**
 * The fingerprint of a reviewed source, and its revalidation while the source is fenced.
 *
 * Names, ids and sort keys are their rank in collation order, and a digest is modelled by what was digested.
 */
module Discovery {
  import opened Basics
  import opened RestartPolicies
  import opened Sorting

  /** `key` ranks the mount's destination, type, source and name; `options` is everything else about it. */
  datatype Mount = Mount(key: int, options: nat)
  datatype Network = Network(name: int, aliases: seq<int>)
  datatype Container = Container(
    id: int, image: nat, config: nat, mounts: seq<Mount>, restart: Policy, host: nat, networks: seq<Network>)

  /** What is digested of a container: no order that Docker leaves open. */
  datatype Form = Form(
    id: int, image: nat, config: nat, mounts: seq<Mount>, restart: Policy, host: nat, networks: seq<Network>)

  function NetworkForm(n: Network): Network {
    n.(aliases := SortBy(n.aliases, (alias: int) => alias))
  }

  function FormOf(c: Container): Form {
    Form(c.id, c.image, c.config, SortBy(c.mounts, (m: Mount) => m.key), c.restart, c.host,
         Map(SortBy(c.networks, (n: Network) => n.name), NetworkForm))
  }

  function SourceFingerprint(containers: seq<Container>): seq<Form> {
    Map(SortBy(containers, (c: Container) => c.id), FormOf)
  }

  // The same configuration, in whatever order

  /** Docker's ids, mount targets, and network names are unique. */
  ghost predicate Unique(containers: seq<Container>) {
    && Distinct(containers, (c: Container) => c.id)
    && forall c | c in containers :: UniqueParts(c)
  }

  ghost predicate UniqueParts(c: Container) {
    Distinct(c.mounts, (m: Mount) => m.key) && Distinct(c.networks, (n: Network) => n.name)
  }

  ghost predicate SameNetwork(n: Network, m: Network) {
    n.name == m.name && multiset(n.aliases) == multiset(m.aliases)
  }

  ghost predicate HasNetwork(n: Network, networks: seq<Network>) {
    exists m :: m in networks && SameNetwork(n, m)
  }

  ghost predicate SameNetworks(a: seq<Network>, b: seq<Network>) {
    (forall n | n in a :: HasNetwork(n, b)) && (forall n | n in b :: HasNetwork(n, a))
  }

  ghost predicate SameConfiguration(c: Container, d: Container) {
    && c.id == d.id && c.image == d.image && c.config == d.config && c.restart == d.restart && c.host == d.host
    && multiset(c.mounts) == multiset(d.mounts)
    && SameNetworks(c.networks, d.networks)
  }

  ghost predicate HasConfiguration(c: Container, containers: seq<Container>) {
    exists d :: d in containers && SameConfiguration(c, d)
  }

  ghost predicate SameSource(a: seq<Container>, b: seq<Container>) {
    (forall c | c in a :: HasConfiguration(c, b)) && (forall c | c in b :: HasConfiguration(c, a))
  }

  lemma NetworkFormExact(n: Network, m: Network)
    ensures NetworkForm(n) == NetworkForm(m) <==> SameNetwork(n, m)
  {
    SortIsNormalForm(n.aliases, m.aliases, (alias: int) => alias);
  }

  lemma CoversNetworks(a: seq<Network>, b: seq<Network>)
    ensures Covers(a, b, NetworkForm) <==> forall n | n in a :: HasNetwork(n, b)
  {
    forall n | n in a
      ensures Counterpart(n, b, NetworkForm) <==> HasNetwork(n, b)
    {
      forall m | m in b
        ensures NetworkForm(n) == NetworkForm(m) <==> SameNetwork(n, m)
      {
        NetworkFormExact(n, m);
      }
    }
  }

  lemma NetworksExact(a: seq<Network>, b: seq<Network>)
    requires Distinct(a, (n: Network) => n.name) && Distinct(b, (n: Network) => n.name)
    ensures Map(SortBy(a, (n: Network) => n.name), NetworkForm) == Map(SortBy(b, (n: Network) => n.name), NetworkForm)
            <==> SameNetworks(a, b)
  {
    var name := (n: Network) => n.name;
    KeyedNormalForm(a, b, name, NetworkForm, name);
    CoversNetworks(a, b);
    CoversNetworks(b, a);
  }

  /** Two containers have one form exactly when nothing about them differs but the order of unordered lists. */
  lemma FormExact(c: Container, d: Container)
    requires UniqueParts(c) && UniqueParts(d)
    ensures FormOf(c) == FormOf(d) <==> SameConfiguration(c, d)
  {
    DistinctTells(c.mounts, (m: Mount) => m.key);
    SortIsNormalForm(c.mounts, d.mounts, (m: Mount) => m.key);
    NetworksExact(c.networks, d.networks);
  }

  lemma CoversContainers(a: seq<Container>, b: seq<Container>)
    requires (forall c | c in a :: UniqueParts(c)) && (forall c | c in b :: UniqueParts(c))
    ensures Covers(a, b, FormOf) <==> forall c | c in a :: HasConfiguration(c, b)
  {
    forall c | c in a
      ensures Counterpart(c, b, FormOf) <==> HasConfiguration(c, b)
    {
      forall d | d in b
        ensures FormOf(c) == FormOf(d) <==> SameConfiguration(c, d)
      {
        FormExact(c, d);
      }
    }
  }

  /** The fingerprint tells sources apart exactly up to the order of containers, mounts, networks and aliases. */
  lemma FingerprintExact(a: seq<Container>, b: seq<Container>)
    requires Unique(a) && Unique(b)
    ensures SourceFingerprint(a) == SourceFingerprint(b) <==> SameSource(a, b)
  {
    KeyedNormalForm(a, b, (c: Container) => c.id, FormOf, (f: Form) => f.id);
    CoversContainers(a, b);
    CoversContainers(b, a);
  }

  // Revalidation

  /**
   * What was reviewed: the containers fingerprinted, the workers among them, and the restart policies recorded.
   * `fence` marks a capture's fence, which lists its containers itself.
   */
  datatype Source = Source(
    fence: bool, ids: seq<int>, workers: seq<int>, restart: map<int, Policy>, fingerprint: seq<Form>)

  function Lookup(all: seq<Container>, id: int): Option<Container> {
    if all == [] then None else if all[0].id == id then Some(all[0]) else Lookup(all[1..], id)
  }

  predicate DistinctIds(ids: seq<int>) {
    forall i, j | 0 <= i < j < |ids| :: ids[i] != ids[j]
  }

  predicate ValidFence(source: Source) {
    && source.ids != [] && DistinctIds(source.ids) && source.workers != [] && DistinctIds(source.workers)
    && forall id | id in source.workers :: id in source.ids && id in source.restart
  }

  /** The container as it was reviewed, where only Manager's own change of its policy is undone; none if another is. */
  function Normalized(c: Container, source: Source, fencing: bool): Option<Container> {
    var recorded := c.id in source.restart;
    if source.fence && !fencing && c.id in source.workers && (!recorded || source.restart[c.id] != c.restart) then None
    else if !fencing || !recorded then Some(c)
    else if c.restart.name != "no" && c.restart != source.restart[c.id] then None
    else Some(c.(restart := source.restart[c.id]))
  }

  function NormalizedAt(source: Source, all: seq<Container>, fencing: bool, id: int): Option<Container> {
    match Lookup(all, id)
    case None => None
    case Some(c) => Normalized(c, source, fencing)
  }

  predicate Revalidates(source: Source, all: seq<Container>, fencing: bool) {
    && (source.fence ==> ValidFence(source))
    && (forall id | id in source.ids :: NormalizedAt(source, all, fencing, id).Some?)
    && SourceFingerprint(NormalizedAll(source, all, fencing)) == source.fingerprint
  }

  function NormalizedAll(source: Source, all: seq<Container>, fencing: bool): (normalized: seq<Container>)
    requires forall id | id in source.ids :: NormalizedAt(source, all, fencing, id).Some?
    ensures |normalized| == |source.ids|
    ensures forall i | 0 <= i < |normalized| :: Some(normalized[i]) == NormalizedAt(source, all, fencing, source.ids[i])
  {
    seq(|source.ids|, i requires 0 <= i < |source.ids| => NormalizedAt(source, all, fencing, source.ids[i]).value)
  }

  /** The fingerprint, ids and policies are those of the reviewed containers. */
  ghost predicate Reviewed(source: Source, reviewed: seq<Container>) {
    && Unique(reviewed) && DistinctIds(source.ids) && source.fingerprint == SourceFingerprint(reviewed)
    && (forall id :: id in source.ids <==> Lookup(reviewed, id).Some?)
    && (forall c | c in reviewed && c.id in source.restart :: source.restart[c.id] == c.restart)
    && (source.fence ==> ValidFence(source))
  }

  /** The container is as reviewed, except that a recorded one may have lost its restart policy. */
  ghost predicate AsReviewed(c: Container, r: Container, source: Source) {
    && SameConfiguration(c.(restart := r.restart), r)
    && (c.restart == r.restart || (c.id in source.restart && c.restart.name == "no"))
  }

  lemma {:induction false} LookupFinds(all: seq<Container>, id: int)
    ensures match Lookup(all, id)
            case Some(c) => c in all && c.id == id
            case None => forall c | c in all :: c.id != id
  {
    if all != [] && all[0].id != id {
      LookupFinds(all[1..], id);
      assert all == [all[0]] + all[1..];
    }
  }

  lemma LookupUnique(all: seq<Container>, c: Container)
    requires c in all && Distinct(all, (c: Container) => c.id)
    ensures Lookup(all, c.id) == Some(c)
  {
    LookupFinds(all, c.id);
    var i :| 0 <= i < |all| && all[i] == c;
    var j :| 0 <= j < |all| && all[j] == Lookup(all, c.id).value;
    var id := (c: Container) => c.id;
    assert Distinct(all, id) && id(all[i]) == id(all[j]);
  }

  ghost predicate IdAsReviewed(source: Source, reviewed: seq<Container>, all: seq<Container>, id: int) {
    Lookup(all, id).Some? && Lookup(reviewed, id).Some? &&
    AsReviewed(Lookup(all, id).value, Lookup(reviewed, id).value, source)
  }

  lemma IdExact(source: Source, reviewed: seq<Container>, all: seq<Container>, id: int)
    requires Reviewed(source, reviewed) && id in source.ids
    ensures IdAsReviewed(source, reviewed, all, id) <==>
            NormalizedAt(source, all, true, id).Some? &&
            SameConfiguration(NormalizedAt(source, all, true, id).value, Lookup(reviewed, id).value)
  {
    LookupFinds(reviewed, id);
    LookupFinds(all, id);
  }

  /** Revalidation while fencing accepts exactly the containers that are as reviewed, whatever order Docker lists. */
  lemma RevalidatesAsReviewed(source: Source, reviewed: seq<Container>, all: seq<Container>)
    requires Reviewed(source, reviewed) && (forall c | c in all :: UniqueParts(c))
    ensures Revalidates(source, all, true) <==> forall id | id in source.ids :: IdAsReviewed(source, reviewed, all, id)
  {
    forall id | id in source.ids
      ensures IdAsReviewed(source, reviewed, all, id) <==>
              NormalizedAt(source, all, true, id).Some? &&
              SameConfiguration(NormalizedAt(source, all, true, id).value, Lookup(reviewed, id).value)
    {
      IdExact(source, reviewed, all, id);
    }
    if forall id | id in source.ids :: NormalizedAt(source, all, true, id).Some? {
      var now := NormalizedAll(source, all, true);
      NormalizedUnique(source, all, now);
      FingerprintExact(now, reviewed);
      NormalizedSame(source, reviewed, all, now);
      ByIndex(source, reviewed, all, now);
    }
  }

  /** The reviewed source's containers, as they are now, normalized. */
  ghost predicate AllNormalized(source: Source, all: seq<Container>, now: seq<Container>) {
    && (forall id | id in source.ids :: NormalizedAt(source, all, true, id).Some?)
    && now == NormalizedAll(source, all, true)
  }

  lemma ByIndex(source: Source, reviewed: seq<Container>, all: seq<Container>, now: seq<Container>)
    requires Reviewed(source, reviewed)
    requires AllNormalized(source, all, now)
    ensures (forall i | 0 <= i < |now| :: SameConfiguration(now[i], Lookup(reviewed, source.ids[i]).value)) <==>
            forall id | id in source.ids ::
              SameConfiguration(NormalizedAt(source, all, true, id).value, Lookup(reviewed, id).value)
  {
    if forall i | 0 <= i < |now| :: SameConfiguration(now[i], Lookup(reviewed, source.ids[i]).value) {
      forall id | id in source.ids
        ensures SameConfiguration(NormalizedAt(source, all, true, id).value, Lookup(reviewed, id).value)
      {
        var i :| 0 <= i < |source.ids| && source.ids[i] == id;
        assert Some(now[i]) == NormalizedAt(source, all, true, id);
      }
    }
    if forall id | id in source.ids ::
        SameConfiguration(NormalizedAt(source, all, true, id).value, Lookup(reviewed, id).value)
    {
      forall i | 0 <= i < |now|
        ensures SameConfiguration(now[i], Lookup(reviewed, source.ids[i]).value)
      {
        assert source.ids[i] in source.ids && Some(now[i]) == NormalizedAt(source, all, true, source.ids[i]);
      }
    }
  }

  lemma NormalizedUnique(source: Source, all: seq<Container>, now: seq<Container>)
    requires DistinctIds(source.ids) && (forall c | c in all :: UniqueParts(c))
    requires AllNormalized(source, all, now)
    ensures Unique(now) && forall i | 0 <= i < |now| :: now[i].id == source.ids[i]
  {
    forall i | 0 <= i < |now|
      ensures now[i].id == source.ids[i] && UniqueParts(now[i])
    {
      var id := source.ids[i];
      assert id in source.ids;
      LookupFinds(all, id);
    }
  }

  lemma NormalizedSame(source: Source, reviewed: seq<Container>, all: seq<Container>, now: seq<Container>)
    requires Reviewed(source, reviewed) && (forall c | c in all :: UniqueParts(c))
    requires AllNormalized(source, all, now)
    ensures SameSource(now, reviewed) <==>
            forall i | 0 <= i < |now| :: SameConfiguration(now[i], Lookup(reviewed, source.ids[i]).value)
  {
    NormalizedUnique(source, all, now);
    NowAllMatch(source, reviewed, now);
    if forall i | 0 <= i < |now| :: SameConfiguration(now[i], Lookup(reviewed, source.ids[i]).value) {
      ReviewedMatches(source, reviewed, now);
    }
  }

  lemma NowAllMatch(source: Source, reviewed: seq<Container>, now: seq<Container>)
    requires Reviewed(source, reviewed) && |now| == |source.ids|
    requires forall i | 0 <= i < |now| :: now[i].id == source.ids[i]
    ensures (forall c | c in now :: HasConfiguration(c, reviewed)) <==>
            forall i | 0 <= i < |now| :: SameConfiguration(now[i], Lookup(reviewed, source.ids[i]).value)
  {
    forall i | 0 <= i < |now|
      ensures now[i] in now
      ensures HasConfiguration(now[i], reviewed) <==> SameConfiguration(now[i], Lookup(reviewed, source.ids[i]).value)
    {
      NowMatches(source, reviewed, now[i], source.ids[i]);
    }
  }

  lemma NowMatches(source: Source, reviewed: seq<Container>, c: Container, id: int)
    requires Reviewed(source, reviewed) && id in source.ids && c.id == id
    ensures HasConfiguration(c, reviewed) <==> SameConfiguration(c, Lookup(reviewed, id).value)
  {
    LookupFinds(reviewed, id);
    if d :| d in reviewed && SameConfiguration(c, d) {
      LookupUnique(reviewed, d);
    }
  }

  lemma ReviewedMatches(source: Source, reviewed: seq<Container>, now: seq<Container>)
    requires Reviewed(source, reviewed) && |now| == |source.ids|
    requires forall i | 0 <= i < |now| :: SameConfiguration(now[i], Lookup(reviewed, source.ids[i]).value)
    ensures forall r | r in reviewed :: HasConfiguration(r, now)
  {
    forall r | r in reviewed
      ensures HasConfiguration(r, now)
    {
      LookupUnique(reviewed, r);
      var i :| 0 <= i < |source.ids| && source.ids[i] == r.id;
      SameSymmetric(now[i], r);
      assert now[i] in now;
    }
  }

  lemma SameSymmetric(c: Container, d: Container)
    requires SameConfiguration(c, d)
    ensures SameConfiguration(d, c)
  {
  }

  // Manager's own changes

  /** One restart policy set on one container. */
  datatype Change = Change(id: int, policy: Policy)

  function SetPolicy(all: seq<Container>, change: Change): (changed: seq<Container>)
    ensures |changed| == |all|
    ensures forall i | 0 <= i < |all| ::
              changed[i] == if all[i].id == change.id then all[i].(restart := change.policy) else all[i]
  {
    Map(all, (c: Container) => if c.id == change.id then c.(restart := change.policy) else c)
  }

  function SetPolicies(all: seq<Container>, changes: seq<Change>): seq<Container>
    decreases |changes|
  {
    if changes == [] then all else SetPolicies(SetPolicy(all, changes[0]), changes[1..])
  }

  /** What fencing and retirement set, "no", or what recovery does: the recorded policy put back. */
  predicate OwnChange(source: Source, change: Change) {
    change.id in source.restart && change.policy in {NEVER, PutBack(source.restart[change.id])}
  }

  lemma {:induction false} LookupChanged(all: seq<Container>, change: Change, id: int)
    ensures Lookup(SetPolicy(all, change), id) ==
            match Lookup(all, id)
            case None => None
            case Some(c) => Some(if id == change.id then c.(restart := change.policy) else c)
  {
    if all != [] {
      assert SetPolicy(all, change)[1..] == SetPolicy(all[1..], change);
      LookupChanged(all[1..], change, id);
    }
  }

  /** Two listings that normalize alike, each for the policies recorded by then, revalidate alike. */
  lemma RevalidatesAlike(source: Source, all: seq<Container>, source': Source, all': seq<Container>)
    requires Revalidates(source, all, true)
    requires source' == source.(restart := source'.restart)
    requires forall id | id in source.workers && id in source.restart :: id in source'.restart
    requires forall id | id in source.ids ::
               NormalizedAt(source', all', true, id) == NormalizedAt(source, all, true, id)
    ensures Revalidates(source', all', true)
  {
    assert NormalizedAll(source', all', true) == NormalizedAll(source, all, true);
  }

  lemma NormalizedOwnChange(source: Source, all: seq<Container>, change: Change, id: int)
    requires OwnChange(source, change) && NormalizedAt(source, all, true, id).Some?
    ensures var kept := change.policy == NEVER || Lasting(source.restart[change.id]) || id != change.id;
            NormalizedAt(source, SetPolicy(all, change), true, id) ==
            if kept then NormalizedAt(source, all, true, id) else None
  {
    LookupChanged(all, change, id);
    LookupFinds(all, id);
    LastingIsExact(source.restart[change.id]);
  }

  /** What a change sets is accepted afterwards: on a container that is not compared, or as "no", or as recorded. */
  predicate Accepted(source: Source, change: Change)
    requires OwnChange(source, change)
  {
    change.id !in source.ids || change.policy == NEVER || Lasting(source.restart[change.id])
  }

  /** One change of Manager's own keeps the source revalidating exactly when it is accepted. */
  lemma RevalidatesAfterOwnChange(source: Source, all: seq<Container>, change: Change)
    requires Revalidates(source, all, true) && OwnChange(source, change)
    ensures Revalidates(source, SetPolicy(all, change), true) <==> Accepted(source, change)
  {
    forall id | id in source.ids
      ensures var kept := change.policy == NEVER || Lasting(source.restart[change.id]) || id != change.id;
              NormalizedAt(source, SetPolicy(all, change), true, id) ==
              if kept then NormalizedAt(source, all, true, id) else None
    {
      NormalizedOwnChange(source, all, change, id);
    }
    if Accepted(source, change) {
      assert NormalizedAll(source, SetPolicy(all, change), true) == NormalizedAll(source, all, true);
    }
  }

  /** Whatever prefix of its own changes Manager had made when it stopped, the source still revalidates. */
  lemma {:induction false} RevalidatesThroughOwnChanges(source: Source, all: seq<Container>, changes: seq<Change>)
    requires Revalidates(source, all, true) && forall c | c in changes :: OwnChange(source, c) && Accepted(source, c)
    ensures Revalidates(source, SetPolicies(all, changes), true)
    decreases |changes|
  {
    if changes != [] {
      RevalidatesAfterOwnChange(source, all, changes[0]);
      RevalidatesThroughOwnChanges(source, SetPolicy(all, changes[0]), changes[1..]);
    }
  }
}
