/** The cross-record checks of an import plan whose records already have the schema's form. */
module ImportPlan {
  import opened Basics

  datatype Mode = Copy | Adopt | Relocate
  datatype Identity = Identity(device: nat, inode: nat, bytes: nat, mtimeNs: int, ctimeNs: int, links: nat)
  datatype Owner = Owner(sourceId: string, destinationId: string)
  datatype Root = Root(id: string, path: string, device: nat, inode: nat)
  datatype File = File(
    id: string, mode: Mode, sourceRoot: string, sourcePath: string, destinationRoot: string, destinationPath: string,
    sha256: string, bytes: nat, sourceIdentity: Identity, destinationDevice: nat,
    sourceAssetId: string, sourceFileId: string)
  datatype Plan = Plan(version: nat, owners: seq<Owner>, roots: seq<Root>, files: seq<File>)

  function Elements<T>(values: seq<T>): set<T> {
    set v | v in values
  }

  /** As many distinct values as values. */
  predicate Unique<T(==)>(values: seq<T>) {
    |Elements(values)| == |values|
  }

  ghost predicate PairwiseDistinct<T>(values: seq<T>) {
    forall i, j | 0 <= i < j < |values| :: values[i] != values[j]
  }

  lemma {:induction false} ElementsCount<T>(values: seq<T>)
    ensures |Elements(values)| <= |values|
    ensures |Elements(values)| == |values| <==> PairwiseDistinct(values)
  {
    if values != [] {
      var n := |values| - 1;
      var last, rest := values[n], values[..n];
      assert values == rest + [last];
      ElementsCount(rest);
      assert Elements(values) == Elements(rest) + {last};
      if last !in rest {
        assert PairwiseDistinct(values) <==> PairwiseDistinct(rest);
      } else {
        var i :| 0 <= i < n && rest[i] == last;
        assert Elements(values) == Elements(rest);
        assert values[i] == values[n];
      }
    }
  }

  function LowerCase(text: string): string {
    Map(text, Lower)
  }

  function RootOf(roots: seq<Root>, id: string): Option<Root> {
    if roots == [] then None
    else if roots[|roots| - 1].id == id then Some(roots[|roots| - 1])
    else RootOf(roots[..|roots| - 1], id)
  }

  /** A root's path and a relative one, neither of which has anything to normalise. */
  function JoinPath(root: string, path: string): string {
    (if root == "/" then root else root + "/") + path
  }

  function Destination(roots: seq<Root>, file: File): string {
    var root := RootOf(roots, file.destinationRoot);
    JoinPath(if root.Some? then root.value.path else "/", file.destinationPath)
  }

  predicate ValidFile(roots: seq<Root>, file: File) {
    var source, destination := RootOf(roots, file.sourceRoot), RootOf(roots, file.destinationRoot);
    && source.Some? && destination.Some?
    && file.bytes == file.sourceIdentity.bytes && file.sourceIdentity.links != 0
    && source.value.device == file.sourceIdentity.device && destination.value.device == file.destinationDevice
    && (file.mode == Relocate ==> source.value.device == destination.value.device)
  }

  // Placements of one source file

  /** What copies of one source file have to agree on. */
  function Placed(file: File): (string, string, Identity, string, nat) {
    (file.sourceRoot, file.sourcePath, file.sourceIdentity, file.sha256, file.bytes)
  }

  ghost predicate Agree(f: File, g: File) {
    && (f.sourceAssetId, f.sourceFileId) != (g.sourceAssetId, g.sourceFileId)
    && (f.sourceFileId == g.sourceFileId ==> f.mode == Copy && g.mode == Copy && Placed(f) == Placed(g))
  }

  ghost predicate PairwiseAgree(files: seq<File>) {
    forall i, j | 0 <= i < j < |files| :: Agree(files[i], files[j])
  }

  /** The most recent placement of each source file, and every pair placed so far. */
  ghost predicate Tracks(files: seq<File>, n: nat, sources: map<string, File>, pairs: set<(string, string)>)
    requires n <= |files|
  {
    && (forall id :: id in sources <==> exists i | 0 <= i < n :: files[i].sourceFileId == id)
    && (forall id | id in sources :: exists i | 0 <= i < n :: files[i] == sources[id] && sources[id].sourceFileId == id)
    && (forall pair ::
          pair in pairs <==> exists i | 0 <= i < n :: (files[i].sourceAssetId, files[i].sourceFileId) == pair)
  }

  /** Comparing each placement with only the most recent one of its source file decides agreement of them all. */
  method PlacementsAgree(files: seq<File>) returns (agree: bool)
    ensures agree <==> PairwiseAgree(files)
  {
    var sources: map<string, File> := map[];
    var pairs: set<(string, string)> := {};
    for n := 0 to |files|
      invariant PairwiseAgree(files[..n])
      invariant Tracks(files, n, sources, pairs)
    {
      var file := files[n];
      var pair := (file.sourceAssetId, file.sourceFileId);
      if pair in pairs {
        var i :| 0 <= i < n && (files[i].sourceAssetId, files[i].sourceFileId) == pair;
        assert !Agree(files[i], files[n]);
        return false;
      }
      if file.sourceFileId in sources {
        var previous := sources[file.sourceFileId];
        if previous.mode != Copy || file.mode != Copy || Placed(previous) != Placed(file) {
          var i :| 0 <= i < n && files[i] == previous;
          assert !Agree(files[i], files[n]);
          return false;
        }
      }
      NextAgrees(files, n, sources, pairs);
      pairs := pairs + {pair};
      sources := sources[file.sourceFileId := file];
    }
    assert files[..|files|] == files;
    return true;
  }

  lemma NextAgrees(files: seq<File>, n: nat, sources: map<string, File>, pairs: set<(string, string)>)
    requires n < |files| && PairwiseAgree(files[..n]) && Tracks(files, n, sources, pairs)
    requires (files[n].sourceAssetId, files[n].sourceFileId) !in pairs
    requires files[n].sourceFileId in sources ==>
               var previous := sources[files[n].sourceFileId];
               previous.mode == Copy && files[n].mode == Copy && Placed(previous) == Placed(files[n])
    ensures PairwiseAgree(files[..n + 1])
  {
    var some := files[..n];
    forall i | 0 <= i < n
      ensures Agree(files[i], files[n])
    {
      if files[i].sourceFileId == files[n].sourceFileId {
        var j :| 0 <= j < n && files[j] == sources[files[n].sourceFileId];
        assert i < j ==> Agree(some[i], some[j]);
        assert j < i ==> Agree(some[j], some[i]);
      }
    }
    var next := files[..n + 1];
    forall i, j | 0 <= i < j < |next|
      ensures Agree(next[i], next[j])
    {
      if j < n {
        assert Agree(some[i], some[j]);
      }
    }
  }

  // The whole plan

  ghost predicate DistinctRecords(plan: Plan) {
    && (forall i, j | 0 <= i < j < |plan.owners| ::
          plan.owners[i].sourceId != plan.owners[j].sourceId &&
          LowerCase(plan.owners[i].destinationId) != LowerCase(plan.owners[j].destinationId))
    && (forall i, j | 0 <= i < j < |plan.roots| ::
          plan.roots[i].id != plan.roots[j].id && plan.roots[i].path != plan.roots[j].path &&
          (plan.roots[i].device, plan.roots[i].inode) != (plan.roots[j].device, plan.roots[j].inode))
    && (forall i, j | 0 <= i < j < |plan.files| ::
          plan.files[i].id != plan.files[j].id &&
          Destination(plan.roots, plan.files[i]) != Destination(plan.roots, plan.files[j]))
  }

  /** A plan is accepted exactly when its records are distinct, its files valid, and its placements agree. */
  method ParseImportPlan(plan: Plan) returns (o: Outcome)
    ensures o == Done <==>
              DistinctRecords(plan) && (forall f | f in plan.files :: ValidFile(plan.roots, f)) &&
              (plan.version == 2 ==> PairwiseAgree(plan.files))
    ensures o == Done || o == Refused("import_plan_invalid")
  {
    UniqueRecords(plan);
    if !HasUniqueRecords(plan) || exists f | f in plan.files :: !ValidFile(plan.roots, f) {
      return Refused("import_plan_invalid");
    }
    if plan.version == 2 {
      var agree := PlacementsAgree(plan.files);
      if !agree {
        return Refused("import_plan_invalid");
      }
    }
    return Done;
  }

  predicate HasUniqueRecords(plan: Plan) {
    && Unique(Map(plan.owners, (o: Owner) => o.sourceId))
    && Unique(Map(plan.owners, (o: Owner) => LowerCase(o.destinationId)))
    && Unique(Map(plan.roots, (r: Root) => r.id))
    && Unique(Map(plan.roots, (r: Root) => r.path))
    && Unique(Map(plan.roots, (r: Root) => (r.device, r.inode)))
    && Unique(Map(plan.files, (f: File) => f.id))
    && Unique(Map(plan.files, (f: File) => Destination(plan.roots, f)))
    && Unique(Map(plan.files, (f: File) => (f.destinationRoot, f.destinationPath)))
  }

  lemma UniqueRecords(plan: Plan)
    ensures HasUniqueRecords(plan) <==> DistinctRecords(plan)
  {
    ElementsCount(Map(plan.owners, (o: Owner) => o.sourceId));
    ElementsCount(Map(plan.owners, (o: Owner) => LowerCase(o.destinationId)));
    ElementsCount(Map(plan.roots, (r: Root) => r.id));
    ElementsCount(Map(plan.roots, (r: Root) => r.path));
    ElementsCount(Map(plan.roots, (r: Root) => (r.device, r.inode)));
    ElementsCount(Map(plan.files, (f: File) => f.id));
    ElementsCount(Map(plan.files, (f: File) => Destination(plan.roots, f)));
    ElementsCount(Map(plan.files, (f: File) => (f.destinationRoot, f.destinationPath)));
  }

  /**
   * Roots can be nested, so comparing root and relative path would not do: these two differ in both and are one file.
   */
  lemma NestedRootsShareDestination(file: File)
    ensures var outer, inner := Root("outer", "/a", 1, 2), Root("inner", "/a/b", 1, 3);
            var f := file.(destinationRoot := "outer", destinationPath := "b/c");
            var g := file.(destinationRoot := "inner", destinationPath := "c");
            Destination([outer, inner], f) == Destination([outer, inner], g) == "/a/b/c"
  {
    var outer, inner := Root("outer", "/a", 1, 2), Root("inner", "/a/b", 1, 3);
    assert [outer, inner][..1] == [outer];
    assert "outer"[0] != "inner"[0];
    assert RootOf([outer, inner], "inner") == Some(inner);
    assert RootOf([outer, inner], "outer") == RootOf([outer], "outer") == Some(outer);
    assert ("/a" + "/") + "b/c" == "/a/b/c" && ("/a/b" + "/") + "c" == "/a/b/c";
  }
}
