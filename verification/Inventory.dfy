/** Paging a library's inventory through the bridge: assets by rank, first the visible ones and then the hidden ones. */
module Inventory {
  import opened Basics

  const RANK_LIMIT := 1_000_000_000

  /** CloudKit answers assets and their masters together; only assets have a rank. */
  datatype Record = Asset(id: nat) | Master(id: nat)
  datatype Kind = Assets | Memberships
  datatype Cursor = Cursor(rank: nat, phase: nat)
  datatype Page = Page(complete: bool, next: Cursor) | Invalid

  function AssetIds(records: seq<Record>): seq<nat> {
    if records == [] then []
    else
      var rest := AssetIds(records[..|records| - 1]);
      match records[|records| - 1]
      case Asset(id) => rest + [id]
      case Master(_) => rest
  }

  lemma {:induction false} AssetIdsConcat(a: seq<Record>, b: seq<Record>)
    ensures AssetIds(a + b) == AssetIds(a) + AssetIds(b)
  {
    if b == [] {
      assert a + b == a;
    } else {
      assert (a + b)[..|a + b| - 1] == a + b[..|b| - 1];
      AssetIdsConcat(a, b[..|b| - 1]);
    }
  }

  /** How many phases the kind has: an album's memberships have no hidden ones. */
  function Phases(kind: Kind): nat {
    if kind == Assets then 2 else 1
  }

  /** A cursor is refused beyond the rank bound or the kind's last phase. */
  predicate Decodes(kind: Kind, c: Cursor) {
    c.rank <= RANK_LIMIT && c.phase < Phases(kind)
  }

  /** The assets in one page, counted as the bridge does. */
  method CountAssets(records: seq<Record>) returns (assets: nat)
    ensures assets == |AssetIds(records)|
  {
    assets := 0;
    for i := 0 to |records|
      invariant assets == |AssetIds(records[..i])|
    {
      assert records[..i + 1][..i] == records[..i];
      if records[i].Asset? {
        assets := assets + 1;
      }
    }
    assert records[..|records|] == records;
  }

  /**
   * A library that does not change, answered in pages of any size: from each rank the page holds the assets that
   * follow it, in order, and at least one while any remain.
   */
  ghost predicate Serves(serve: (nat, nat) -> seq<Record>, library: seq<seq<nat>>) {
    forall phase, rank | 0 <= phase < |library| && 0 <= rank <= |library[phase]| ::
      ServesFrom(serve(phase, rank), library[phase][rank..])
  }

  ghost predicate ServesFrom(page: seq<Record>, rest: seq<nat>) {
    AssetIds(page) <= rest && (rest != [] ==> AssetIds(page) != [])
  }

  /** The assets of the phases before `phase`. */
  function Before(library: seq<seq<nat>>, phase: nat): seq<nat>
    requires phase <= |library|
  {
    if phase == 0 then [] else Before(library, phase - 1) + library[phase - 1]
  }

  /** One request: the records of the cursor's page. Only a page without assets ends a phase, and the last all. */
  method Inventory(kind: Kind, c: Cursor, serve: (nat, nat) -> seq<Record>) returns (page: Page, records: seq<Record>)
    ensures if Decodes(kind, c) then page.Page? && records == serve(c.phase, c.rank)
            else page == Invalid && records == []
    ensures page.Page? ==> (page.complete <==> AssetIds(records) == [] && c.phase + 1 == Phases(kind))
    ensures page.Page? && !page.complete ==>
              page.next == if AssetIds(records) == [] then Cursor(0, c.phase + 1)
                           else Cursor(c.rank + |AssetIds(records)|, c.phase)
  {
    if !Decodes(kind, c) {
      return Invalid, [];
    }
    records := serve(c.phase, c.rank);
    var assets := CountAssets(records);
    var complete := assets == 0;
    var next := c.(rank := c.rank + assets);
    if complete && kind == Assets && c.phase == 0 {
      next := Cursor(0, 1);
      complete := false;
    }
    page := Page(complete, next);
  }

  /** A page adds the next assets of its phase, and one without assets ends it. */
  lemma PageFollows(phase: seq<nat>, rank: nat, page: seq<nat>)
    requires rank <= |phase| && page <= phase[rank..] && (phase[rank..] != [] ==> page != [])
    ensures rank + |page| <= |phase| && phase[..rank] + page == phase[..rank + |page|]
    ensures page == [] ==> rank == |phase| && phase[..rank] == phase
  {
  }

  /**
   * Following the cursor until the inventory is complete collects every asset of every phase exactly once, in rank
   * order; it ends, and is refused exactly when a phase is longer than a cursor can rank.
   */
  method Collect(kind: Kind, serve: (nat, nat) -> seq<Record>, ghost library: seq<seq<nat>>)
    returns (o: Outcome, collected: seq<Record>)
    requires |library| == Phases(kind) && Serves(serve, library)
    ensures o == Done <==> forall phase | 0 <= phase < |library| :: |library[phase]| <= RANK_LIMIT
    ensures o == Done ==> AssetIds(collected) == Before(library, |library|)
    ensures o == Done || o == Refused("invalid_request")
  {
    collected := [];
    var c := Cursor(0, 0);
    while true
      invariant c.phase < |library| && c.rank <= |library[c.phase]|
      invariant AssetIds(collected) == Before(library, c.phase) + library[c.phase][..c.rank]
      invariant forall phase | 0 <= phase < c.phase :: |library[phase]| <= RANK_LIMIT
      decreases |library| - c.phase, |library[c.phase]| - c.rank
    {
      ghost var rest := library[c.phase][c.rank..];
      var page, records := Inventory(kind, c, serve);
      if page == Invalid {
        return Refused("invalid_request"), collected;
      }
      assert ServesFrom(records, rest);
      AssetIdsConcat(collected, records);
      collected := collected + records;
      PageFollows(library[c.phase], c.rank, AssetIds(records));
      if page.complete {
        return Done, collected;
      }
      c := page.next;
    }
  }
}
