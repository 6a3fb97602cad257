/**
 * The Manager's desktop grants: pairings approved by the administrator, the grants they are redeemed for, and the
 * nonces that make each signed request good for one use.
 *
 * Identifiers and secrets are drawn from a counter, so a random one is never drawn twice; a digest stands for what
 * was digested, and a signature for its key and its message.
 */
module DesktopGrants {
  import opened Basics

  const WINDOW := 60_000
  const RECENT := 300_000
  const LIFETIME := 30 * 86_400_000

  datatype Details = Details(device: nat, installation: nat, key: nat, scopes: set<string>)
  datatype Pairing = Pairing(details: Details, origin: string, secret: nat, epoch: nat, approvedAt: int, expiresAt: int)
  datatype Grant = Grant(details: Details, token: nat, epoch: nat, expiresAt: int, recentUntil: int)
  datatype Target = Target(installation: nat, scope: string, method_: string, path: string, body: nat)
  datatype Claim = Claim(manager: nat, grant: nat, device: nat, token: nat, timestamp: int, nonce: nat)
  datatype Message =
    | PairMessage(manager: nat, pairing: nat, approved: Pairing)
    | RequestMessage(manager: nat, origin: string, claim: Claim, target: Target)
  datatype Signature = Signature(key: nat, message: Message)

  /** One authorized request: its grant, nonce and timestamp, and when it was authorized. */
  datatype Use = Use(grant: nat, nonce: nat, timestamp: int, at: int)

  function Abs(x: int): nat {
    if x < 0 then -x else x
  }

  /** A proof is timely while its timestamp is within the window of the clock. */
  predicate Timely(timestamp: int, now: int) {
    Abs(timestamp - now) <= WINDOW
  }

  /**
   * Keeping a nonce for `retention` is enough for its proof never to be timely again once the nonce is gone, exactly
   * when it is kept for twice the window.
   */
  lemma RetentionIsExact(retention: nat)
    ensures (forall timestamp, first, again |
               Timely(timestamp, first) && Timely(timestamp, again) && first <= again :: !(first + retention < again))
            <==> retention >= 2 * WINDOW
  {
    if retention < 2 * WINDOW {
      assert Timely(WINDOW, 0) && Timely(WINDOW, 2 * WINDOW);
    }
  }

  predicate Signed(key: nat, signature: Signature, message: Message) {
    signature == Signature(key, message)
  }

  /** The grant is of this epoch and within its lifetime. */
  predicate Current(grant: Grant, epoch: nat, now: int) {
    grant.epoch == epoch && grant.expiresAt > now && grant.expiresAt - LIFETIME <= now
  }

  /** Everything an authorized request needs but a fresh nonce; `read` is when the grant was read. */
  predicate Authentic(
    grant: Grant, epoch: nat, manager: nat, origin: string, read: int, now: int,
    claim: Claim, signature: Signature, target: Target)
  {
    Current(grant, epoch, read) && Proven(grant, manager, origin, now, claim, signature, target)
  }

  /** The request is for this grant, in its scopes, timely, signed, and recently confirmed where that is needed. */
  predicate Proven(
    grant: Grant, manager: nat, origin: string, now: int, claim: Claim, signature: Signature, target: Target)
  {
    && claim.manager == manager && claim.device == grant.details.device && Timely(claim.timestamp, now)
    && claim.token == grant.token
    && target.installation == grant.details.installation
    && target.scope in grant.details.scopes
    && Signed(grant.details.key, signature, RequestMessage(manager, origin, claim, target))
    && (target.scope in {"status", "start"} || (now < grant.recentUntil && grant.recentUntil - RECENT <= now))
  }

  /** Every grant was minted from an approved pairing of its own, which is then no longer pending. */
  ghost predicate Traced(minted: map<nat, nat>, approved: map<nat, Pairing>, pairings: map<nat, Pairing>, next: nat) {
    && (forall p | p in approved :: p < next)
    && (forall p | p in pairings :: p in approved && pairings[p] == approved[p])
    && (forall g | g in minted :: g < next && minted[g] in approved && minted[g] !in pairings)
    && (forall g, h | g in minted && h in minted && g != h :: minted[g] != minted[h])
  }

  /** Each grant is what its pairing allowed, for the pairing's epoch and the administrator's last confirmation. */
  ghost predicate Granted(
    grants: map<nat, Grant>, minted: map<nat, nat>, approved: map<nat, Pairing>, confirmed: map<nat, int>, clock: int)
  {
    forall g | g in grants ::
      && g in minted && g in confirmed && minted[g] in approved
      && grants[g].details == approved[minted[g]].details && grants[g].epoch == approved[minted[g]].epoch
      && grants[g].recentUntil == confirmed[g] + RECENT && confirmed[g] <= clock
  }

  ghost predicate SameProof(u: Use, v: Use) {
    u.grant == v.grant && u.nonce == v.nonce && u.timestamp == v.timestamp
  }

  /** No proof was authorized twice. */
  ghost predicate Once(uses: seq<Use>) {
    forall i, j | 0 <= i < j < |uses| :: !SameProof(uses[i], uses[j])
  }

  /** Every authorized proof of a live grant is either no longer timely or has its nonce kept until it is not. */
  ghost predicate Guarded(uses: seq<Use>, live: set<nat>, nonces: map<(nat, nat), int>, clock: int) {
    forall u | u in uses :: u.at <= clock && Timely(u.timestamp, u.at) && (u.grant in live ==> Kept(u, nonces, clock))
  }

  ghost predicate Kept(u: Use, nonces: map<(nat, nat), int>, clock: int) {
    u.at + 2 * WINDOW < clock || ((u.grant, u.nonce) in nonces && nonces[(u.grant, u.nonce)] >= u.at + 2 * WINDOW)
  }

  /** A timely proof whose nonce is not kept has never been used; using it keeps the guard. */
  lemma FreshUse(uses: seq<Use>, live: set<nat>, nonces: map<(nat, nat), int>, clock: int, use: Use)
    requires Once(uses) && Guarded(uses, live, nonces, clock)
    requires use.grant in live && use.at == clock && Timely(use.timestamp, clock)
    requires (use.grant, use.nonce) in nonces ==> nonces[(use.grant, use.nonce)] < clock
    ensures forall u | u in uses :: !SameProof(u, use)
    ensures Once(uses + [use])
    ensures var kept := map key | key in nonces && nonces[key] >= clock :: nonces[key];
            Guarded(uses + [use], live, kept[(use.grant, use.nonce) := clock + 2 * WINDOW], clock)
  {
    var kept := map key | key in nonces && nonces[key] >= clock :: nonces[key];
    var nonces' := kept[(use.grant, use.nonce) := clock + 2 * WINDOW];
    forall u | u in uses
      ensures !SameProof(u, use)
      ensures u.grant in live ==> Kept(u, nonces', clock)
    {
      assert u.at <= clock && (u.grant in live ==> Kept(u, nonces, clock));
    }
  }

  /**
   * What no request ever undoes: approvals, mintings and uses are kept, a grant that is gone stays gone, and one that
   * is left keeps its details, token, epoch and expiry.
   */
  twostate predicate Later(d: DesktopGrants)
    reads d
  {
    && old(d.clock) <= d.clock && old(d.uses) <= d.uses
    && (forall p | p in old(d.approved) :: p in d.approved && d.approved[p] == old(d.approved)[p])
    && (forall g | g in old(d.minted) :: g in d.minted && d.minted[g] == old(d.minted)[g])
    && (forall g | g in d.grants :: g in old(d.minted) ==> g in old(d.grants))
    && (forall g | g in d.grants && g in old(d.grants) ::
          d.grants[g].(recentUntil := 0) == old(d.grants)[g].(recentUntil := 0))
  }

  datatype Event =
    | Tick(elapsed: nat)
    | SetAdministrator(epoch: nat)
    | Approve(admin: nat, details: Details)
    | Redeem(pairing: nat, secret: nat, signature: Signature)
    | Authorize(claim: Claim, signature: Signature, target: Target, delay: nat)
    | Reauthenticate(admin: nat, grant: nat)
    | Revoke(admin: nat, grant: nat)
    | Restart(origin: string)

  lemma MintTraced(
    minted: map<nat, nat>, approved: map<nat, Pairing>, pairings: map<nat, Pairing>, next: nat, pairing: nat)
    requires Traced(minted, approved, pairings, next) && pairing in pairings
    ensures Traced(minted[next := pairing], approved, pairings - {pairing}, next + 2)
  {
  }

  lemma MintGuarded(uses: seq<Use>, live: set<nat>, nonces: map<(nat, nat), int>, clock: int, id: nat)
    requires Guarded(uses, live, nonces, clock) && forall u | u in uses :: u.grant != id
    ensures Guarded(uses, live + {id}, nonces, clock)
  {
  }

  lemma MintGranted(
    grants: map<nat, Grant>, minted: map<nat, nat>, approved: map<nat, Pairing>, confirmed: map<nat, int>, clock: int,
    id: nat, grant: Grant, pairing: nat)
    requires Granted(grants, minted, approved, confirmed, clock) && id !in minted && pairing in approved
    requires grant.details == approved[pairing].details && grant.epoch == approved[pairing].epoch
    requires grant.recentUntil == approved[pairing].approvedAt + RECENT && approved[pairing].approvedAt <= clock
    ensures Granted(grants[id := grant], minted[id := pairing], approved,
                    confirmed[id := approved[pairing].approvedAt], clock)
  {
  }

  class DesktopGrants {
    const manager: nat
    var origin: string
    var epoch: nat
    var clock: int
    var next: nat
    var pairings: map<nat, Pairing>
    var grants: map<nat, Grant>
    var nonces: map<(nat, nat), int>

    // What happened: every pairing approved, the pairing each grant was minted from, when the administrator last
    // confirmed a grant, and every request authorized.
    ghost var approved: map<nat, Pairing>
    ghost var minted: map<nat, nat>
    ghost var confirmed: map<nat, int>
    ghost var uses: seq<Use>

    constructor (manager: nat, origin: string, epoch: nat, clock: int)
      ensures Valid() && uses == [] && this.manager == manager && this.origin == origin && this.epoch == epoch
    {
      this.manager := manager;
      this.origin := origin;
      this.epoch := epoch;
      this.clock := clock;
      next := 0;
      pairings, grants, nonces := map[], map[], map[];
      approved, minted, confirmed, uses := map[], map[], map[], [];
    }

    ghost predicate Valid()
      reads this
    {
      Provenance() && AtMostOnce()
    }

    ghost predicate Provenance()
      reads this
    {
      Traced(minted, approved, pairings, next) && Granted(grants, minted, approved, confirmed, clock)
    }

    ghost predicate AtMostOnce()
      reads this
    {
      (forall u | u in uses :: u.grant in minted) && Once(uses) && Guarded(uses, grants.Keys, nonces, clock)
    }

    ghost predicate SameTables(was: (map<nat, Pairing>, map<nat, Grant>, map<(nat, nat), int>))
      reads this
    {
      (pairings, grants, nonces) == was
    }

    method Tick(elapsed: nat)
      requires Valid()
      modifies `clock
      ensures Valid() && clock == old(clock) + elapsed
    {
      clock := clock + elapsed;
    }

    /** A new administrator password or account: grants of the former epoch stop working. */
    method SetAdministrator(epoch: nat)
      requires Valid()
      modifies `epoch
      ensures Valid() && this.epoch == epoch
    {
      this.epoch := epoch;
    }

    /** Approves a pairing for an administrator confirmed as `admin`. */
    method Approve(admin: nat, details: Details) returns (o: Outcome, id: nat)
      requires Valid()
      modifies `next, `pairings, `approved
      ensures Valid() && forall p | p in old(approved) :: p in approved && approved[p] == old(approved)[p]
      ensures o == if admin == epoch then Done else Refused("invalid_credentials")
      ensures o != Done ==> pairings == old(pairings) && approved == old(approved)
      ensures o == Done ==>
                id !in old(approved) && id in pairings && pairings == old(pairings)[id := pairings[id]] &&
                pairings[id].details == details && pairings[id].epoch == epoch &&
                pairings[id].approvedAt == clock && pairings[id].expiresAt == clock + RECENT
    {
      if admin != epoch {
        return Refused("invalid_credentials"), 0;
      }
      id := next;
      var pairing := Pairing(details, origin, next + 1, epoch, clock, clock + RECENT);
      next := next + 2;
      pairings := pairings[id := pairing];
      approved := approved[id := pairing];
      return Done, id;
    }

    /** Exchanges a pending pairing for a grant; the pairing is used up. */
    method Redeem(pairing: nat, secret: nat, signature: Signature) returns (o: Outcome, id: nat)
      requires Valid()
      modifies `next, `pairings, `grants, `minted, `confirmed
      ensures Valid()
      ensures o == Done <==>
                pairing in old(pairings) &&
                var p := old(pairings)[pairing];
                p.epoch == epoch && clock < p.expiresAt && p.approvedAt <= clock && p.secret == secret &&
                Signed(p.details.key, signature, PairMessage(manager, pairing, p))
      ensures o != Done ==> SameTables(old((pairings, grants, nonces))) && minted == old(minted)
      ensures o == Done ==>
                id !in old(minted) && minted == old(minted)[id := pairing] &&
                grants.Keys == old(grants).Keys + {id} &&
                (forall g | g in old(grants) :: grants[g] == old(grants)[g]) &&
                grants[id].details == old(pairings)[pairing].details && grants[id].expiresAt == clock + LIFETIME &&
                pairings == old(pairings) - {pairing}
    {
      id := 0;
      if pairing !in pairings || pairings[pairing].epoch != epoch || pairings[pairing].expiresAt <= clock ||
         pairings[pairing].approvedAt > clock {
        return Refused("desktop_pairing_unavailable"), 0;
      }
      var p := pairings[pairing];
      if p.secret != secret || !Signed(p.details.key, signature, PairMessage(manager, pairing, p)) {
        return Refused("desktop_pairing_invalid"), 0;
      }
      id := Mint(pairing);
      return Done, id;
    }

    method Mint(pairing: nat) returns (id: nat)
      requires Valid() && pairing in pairings && pairings[pairing].approvedAt <= clock
      modifies `next, `pairings, `grants, `minted, `confirmed
      ensures Valid() && id !in old(minted) && minted == old(minted)[id := pairing]
      ensures pairings == old(pairings) - {pairing}
      ensures id in grants && grants == old(grants)[id := grants[id]]
      ensures grants[id].details == old(pairings)[pairing].details && grants[id].expiresAt == clock + LIFETIME
    {
      var p := pairings[pairing];
      id := next;
      var grant := Grant(p.details, next + 1, p.epoch, clock + LIFETIME, p.approvedAt + RECENT);
      MintTraced(minted, approved, pairings, next, pairing);
      MintGranted(grants, minted, approved, confirmed, clock, id, grant, pairing);
      MintGuarded(uses, grants.Keys, nonces, clock, id);
      grants := grants[id := grant];
      next := next + 2;
      pairings := pairings - {pairing};
      minted := minted[id := pairing];
      confirmed := confirmed[id := p.approvedAt];
    }

    /**
     * Authorizes one signed request. The grant is read `delay` before the clock is compared with the proof, all in
     * one transaction: a request that is refused leaves no trace.
     */
    method Authorize(claim: Claim, signature: Signature, target: Target, delay: nat) returns (o: Outcome)
      requires Valid()
      modifies `clock, `nonces, `uses
      ensures Valid() && clock == old(clock) + delay
      ensures o == Done <==>
                claim.grant in grants &&
                Authentic(grants[claim.grant], epoch, manager, origin, old(clock), clock, claim, signature, target) &&
                ((claim.grant, claim.nonce) in old(nonces) ==> old(nonces)[(claim.grant, claim.nonce)] < clock)
      ensures o != Done ==> nonces == old(nonces) && uses == old(uses)
      ensures o == Done ==>
                && uses == old(uses) + [Use(claim.grant, claim.nonce, claim.timestamp, clock)]
                && (forall u | u in old(uses) :: !SameProof(u, Use(claim.grant, claim.nonce, claim.timestamp, clock)))
                && approved[minted[claim.grant]].epoch == epoch
                && target.scope in approved[minted[claim.grant]].details.scopes
                && (target.scope !in {"status", "start"} ==>
                      confirmed[claim.grant] <= clock < confirmed[claim.grant] + RECENT)
    {
      var read := clock;
      clock := clock + delay;
      if claim.grant !in grants || !Current(grants[claim.grant], epoch, read) {
        return Refused("desktop_grant_invalid");
      }
      o := Check(grants[claim.grant], claim, signature, target);
      if o == Done {
        o := UseNonce(claim);
      }
    }

    /** Accepts exactly the proven requests, whichever way another one fails. */
    method Check(grant: Grant, claim: Claim, signature: Signature, target: Target) returns (o: Outcome)
      ensures o == Done <==> Proven(grant, manager, origin, clock, claim, signature, target)
    {
      var now := clock;
      if claim.manager != manager || claim.device != grant.details.device || !Timely(claim.timestamp, now) ||
         claim.token != grant.token {
        return Refused("desktop_grant_invalid");
      }
      if target.installation != grant.details.installation {
        return Refused("desktop_grant_installation_changed");
      }
      if target.scope !in grant.details.scopes {
        return Refused("desktop_grant_scope_denied");
      }
      if !Signed(grant.details.key, signature, RequestMessage(manager, origin, claim, target)) {
        return Refused("desktop_grant_invalid");
      }
      if target.scope !in {"status", "start"} && (grant.recentUntil <= now || grant.recentUntil - RECENT > now) {
        return Refused("desktop_recent_auth_required");
      }
      return Done;
    }

    /** Uses up a timely proof's nonce, after dropping the expired ones; a nonce still kept is a replay. */
    method UseNonce(claim: Claim) returns (o: Outcome)
      requires Valid() && claim.grant in grants && Timely(claim.timestamp, clock)
      modifies `nonces, `uses
      ensures Valid()
      ensures o == Done <==>
                ((claim.grant, claim.nonce) in old(nonces) ==> old(nonces)[(claim.grant, claim.nonce)] < clock)
      ensures o != Done ==> nonces == old(nonces) && uses == old(uses)
      ensures o == Done ==>
                uses == old(uses) + [Use(claim.grant, claim.nonce, claim.timestamp, clock)] &&
                forall u | u in old(uses) :: !SameProof(u, Use(claim.grant, claim.nonce, claim.timestamp, clock))
    {
      var saved := nonces;
      nonces := map key | key in nonces && nonces[key] >= clock :: nonces[key];
      if (claim.grant, claim.nonce) in nonces {
        nonces := saved;
        return Refused("desktop_request_replayed");
      }
      nonces := nonces[(claim.grant, claim.nonce) := clock + 2 * WINDOW];
      FreshUse(uses, grants.Keys, saved, clock, Use(claim.grant, claim.nonce, claim.timestamp, clock));
      uses := uses + [Use(claim.grant, claim.nonce, claim.timestamp, clock)];
      return Done;
    }

    method Reauthenticate(admin: nat, id: nat) returns (o: Outcome)
      requires Valid()
      modifies `grants, `confirmed
      ensures Valid()
      ensures o == Done <==> admin == epoch && id in old(grants) && Current(old(grants)[id], epoch, clock)
      ensures o != Done ==> grants == old(grants)
      ensures o == Done ==> grants == old(grants)[id := old(grants)[id].(recentUntil := clock + RECENT)]
    {
      if admin != epoch {
        return Refused("invalid_credentials");
      }
      if id !in grants || !Current(grants[id], epoch, clock) {
        return Refused("desktop_grant_invalid");
      }
      grants := grants[id := grants[id].(recentUntil := clock + RECENT)];
      confirmed := confirmed[id := clock];
      return Done;
    }

    method Revoke(admin: nat, id: nat) returns (o: Outcome)
      requires Valid()
      modifies `grants, `nonces
      ensures Valid()
      ensures o == if admin == epoch then Done else Refused("invalid_credentials")
      ensures o != Done ==> grants == old(grants) && nonces == old(nonces)
      ensures o == Done ==>
                grants == old(grants) - {id} && forall key :: key in nonces <==> key in old(nonces) && key.0 != id
    {
      if admin != epoch {
        return Refused("invalid_credentials");
      }
      grants := grants - {id};
      nonces := map key | key in nonces && key.0 != id :: nonces[key];
      return Done;
    }

    /** A start under another origin revokes every grant, pairing and nonce; their proofs name the former origin. */
    method Restart(origin: string)
      requires Valid()
      modifies `origin, `pairings, `grants, `nonces
      ensures Valid() && this.origin == origin
      ensures SameTables(if origin == old(this.origin) then old((pairings, grants, nonces)) else (map[], map[], map[]))
    {
      if this.origin != origin {
        pairings, grants, nonces := map[], map[], map[];
        this.origin := origin;
      }
    }

    method Step(e: Event)
      requires Valid()
      modifies this
      ensures Valid() && Later(this)
    {
      match e
      case Approve(admin, details) => var o, id := Approve(admin, details);
      case Redeem(pairing, secret, signature) => var o, id := Redeem(pairing, secret, signature);
      case Authorize(claim, signature, target, delay) => var o := Authorize(claim, signature, target, delay);
      case _ => Manage(e);
    }

    /** The steps that need no device: time, the administrator's, and a restart. */
    method Manage(e: Event)
      requires Valid() && !e.Approve? && !e.Redeem? && !e.Authorize?
      modifies this
      ensures Valid() && Later(this)
    {
      match e
      case Tick(elapsed) => Tick(elapsed);
      case SetAdministrator(epoch) => SetAdministrator(epoch);
      case Reauthenticate(admin, grant) => var o := Reauthenticate(admin, grant);
      case Revoke(admin, grant) => var o := Revoke(admin, grant);
      case Restart(origin) => Restart(origin);
    }

    /**
     * Over any run no proof is authorized twice, every grant is of one approved pairing of its own and unchanged, and
     * one that was revoked, or dropped with its origin, never comes back.
     */
    method Run(events: seq<Event>)
      requires Valid()
      modifies this
      ensures Valid() && Later(this)
      ensures Once(uses)
    {
      for i := 0 to |events|
        invariant Valid() && Later(this)
      {
        Step(events[i]);
      }
    }
  }
}
