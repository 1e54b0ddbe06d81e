/**
 Loading a view with its transitive dependencies from the schema service
 (`load_view_from_service`, `load_view_recursive`, src/fold_node/node.rs). The service is a
 pair of maps that answers the same way every time.
 */
module ViewLoader {
  import opened Wrappers

  datatype Name = Name(text: string)

  const MAX_VIEW_LOAD_DEPTH: nat := 16

  datatype StoredView = StoredView(name: Name, outputSchema: Name, sources: seq<Name>)

  datatype Service = Service(views: map<Name, StoredView>, schemas: set<Name>)

  /** What is registered locally. */
  datatype Local = Local(views: set<Name>, schemas: set<Name>) {
    predicate Has(n: Name) {
      n in schemas || n in views
    }
  }

  /** The service answers a view request with a view of that name. */
  ghost predicate Honest(svc: Service) {
    forall n | n in svc.views :: svc.views[n].name == n
  }

  datatype LoadError =
    | TooDeep(name: Name)
    | Circular(name: Name)
    | ViewMissing(name: Name)
    | OutputMissing(view: Name, schema: Name)
    | RegistrationFailed(name: Name)

  /** `schemas_to_load` holds the serialized form of the same schemas as `loadedSchemas`. */
  datatype LoadResult = LoadResult(
    loadedViews: seq<Name>,
    loadedSchemas: seq<Name>,
    alreadyLoaded: seq<Name>,
    viewsToRegister: seq<StoredView>
  )

  const NOTHING_LOADED := LoadResult([], [], [], [])

  predicate Queued(res: LoadResult, n: Name) {
    exists v :: v in res.viewsToRegister && v.name == n
  }

  // ---- The dependency graph ----

  /** `s` is a source of the view `v` that can only be had by loading it as a view. */
  predicate Follows(svc: Service, local: Local, v: Name, s: Name) {
    v in svc.views && s in svc.views[v].sources && !local.Has(s) && s !in svc.schemas
  }

  ghost predicate IsPath(svc: Service, local: Local, p: seq<Name>) {
    p != [] && forall i, j | 0 <= i < j < |p| && j == i + 1 :: Follows(svc, local, p[i], p[j])
  }

  predicate Loadable(svc: Service, n: Name) {
    n in svc.views && svc.views[n].outputSchema in svc.schemas
  }

  /** Every view that `root` needs is on the service, with its output schema. */
  ghost predicate FullyPresent(svc: Service, local: Local, root: Name) {
    forall p | IsPath(svc, local, p) && p[0] == root :: Loadable(svc, p[|p| - 1])
  }

  /** No dependency path from `root` has more than 16 edges. */
  ghost predicate Shallow(svc: Service, local: Local, root: Name) {
    forall p | IsPath(svc, local, p) && p[0] == root :: |p| - 1 <= 16
  }

  ghost predicate Acyclic(svc: Service, local: Local, root: Name) {
    forall p, i | IsPath(svc, local, p) && p[0] == root && 0 <= i < |p| - 1 :: p[i] != p[|p| - 1]
  }

  function IndexOf(xs: seq<Name>, x: Name): (i: nat)
    requires x in xs
    ensures i < |xs| && xs[i] == x && forall j | 0 <= j < i :: xs[j] != x
  {
    if xs[0] == x then 0 else 1 + IndexOf(xs[1..], x)
  }

  /** `v` lists its source `s` before its source `t`. */
  predicate ListsBefore(svc: Service, v: Name, s: Name, t: Name) {
    && v in svc.views && s in svc.views[v].sources && t in svc.views[v].sources
    && IndexOf(svc.views[v].sources, s) < IndexOf(svc.views[v].sources, t)
  }

  /** The path `q` leaves `p` for a source that is listed earlier. */
  ghost predicate Earlier(svc: Service, q: seq<Name>, p: seq<Name>) {
    exists i ::
      0 <= i < |q| - 1 && i < |p| - 1 && q[..i + 1] == p[..i + 1] && ListsBefore(svc, p[i], q[i + 1], p[i + 1])
  }

  /** The first path from `p[0]` to its last view in listing order: the one on which loading first meets that view. */
  ghost predicate FirstPath(svc: Service, local: Local, p: seq<Name>) {
    && IsPath(svc, local, p)
    && forall q | IsPath(svc, local, q) && q[0] == p[0] && q[|q| - 1] == p[|p| - 1] :: !Earlier(svc, q, p)
  }

  /** No view that `root` needs is first met deeper than the limit. */
  ghost predicate FirstMetShallow(svc: Service, local: Local, root: Name) {
    forall p | FirstPath(svc, local, p) && p[0] == root :: |p| - 1 <= 16
  }

  /** `p` is a path from its first name that justifies the error. */
  ghost predicate Justifies(svc: Service, local: Local, p: seq<Name>, e: LoadError) {
    && IsPath(svc, local, p)
    && match e
       case TooDeep(n) => |p| - 1 == 17 && p[|p| - 1] == n && FirstPath(svc, local, p)
       case Circular(n) => p[|p| - 1] == n && n in p[..|p| - 1]
       case ViewMissing(n) => p[|p| - 1] == n && n !in svc.views
       case OutputMissing(v, s) =>
         p[|p| - 1] == v && v in svc.views && s == svc.views[v].outputSchema && s !in svc.schemas
       case RegistrationFailed(_) => false
  }

  // ---- What the collected result satisfies at every moment ----

  /** `n` is local, a queued schema, or one of the first `k` queued views. */
  predicate Settled(local: Local, res: LoadResult, n: Name, k: nat)
    requires k <= |res.viewsToRegister|
  {
    local.Has(n) || n in res.loadedSchemas || exists j :: 0 <= j < k && res.viewsToRegister[j].name == n
  }

  ghost predicate ViewReady(svc: Service, local: Local, res: LoadResult, k: nat)
    requires k < |res.viewsToRegister|
  {
    var v := res.viewsToRegister[k];
    && Loadable(svc, v.name) && v == svc.views[v.name]
    && (forall s | s in v.sources :: Settled(local, res, s, k))
    && (v.outputSchema in local.schemas || v.outputSchema in res.loadedSchemas)
  }

  ghost predicate Collected(svc: Service, local: Local, res: LoadResult) {
    && (forall i, j | 0 <= i < j < |res.viewsToRegister| :: res.viewsToRegister[i].name != res.viewsToRegister[j].name)
    && (forall k | 0 <= k < |res.viewsToRegister| :: ViewReady(svc, local, res, k))
    && (forall s | s in res.loadedSchemas :: s in svc.schemas)
    && |res.loadedViews| == |res.viewsToRegister|
    && (forall k | 0 <= k < |res.loadedViews| :: res.loadedViews[k] == res.viewsToRegister[k].name)
  }

  /** `res'` continues `res`. */
  ghost predicate Extends(res: LoadResult, res': LoadResult) {
    && res.viewsToRegister <= res'.viewsToRegister
    && res.loadedSchemas <= res'.loadedSchemas
  }

  /** Names being loaded are those on the call chain and those already queued. */
  ghost predicate LoadingIs(loading: set<Name>, chain: seq<Name>, res: LoadResult) {
    forall n :: n in loading <==> n in chain || Queued(res, n)
  }

  ghost predicate NoneQueued(chain: seq<Name>, res: LoadResult) {
    forall n | n in chain :: !Queued(res, n)
  }

  lemma ReadyStays(svc: Service, local: Local, res: LoadResult, res': LoadResult, k: nat)
    requires k < |res.viewsToRegister| && ViewReady(svc, local, res, k) && Extends(res, res')
    ensures ViewReady(svc, local, res', k)
  {
    forall s | s in res.viewsToRegister[k].sources ensures Settled(local, res', s, k) {
      assert Settled(local, res, s, k);
      SchemaStays(res, res', s);
    }
    SchemaStays(res, res', res.viewsToRegister[k].outputSchema);
  }

  lemma SchemaStays(res: LoadResult, res': LoadResult, s: Name)
    requires Extends(res, res')
    ensures s in res.loadedSchemas ==> s in res'.loadedSchemas
    ensures Queued(res, s) ==> Queued(res', s)
  {
    if s in res.loadedSchemas {
      var i :| 0 <= i < |res.loadedSchemas| && res.loadedSchemas[i] == s;
      assert res'.loadedSchemas[i] == s;
    }
    if Queued(res, s) {
      var v :| v in res.viewsToRegister && v.name == s;
      var i :| 0 <= i < |res.viewsToRegister| && res.viewsToRegister[i] == v;
      assert res'.viewsToRegister[i] == v;
    }
  }

  lemma SettledStays(local: Local, res: LoadResult, res': LoadResult, n: Name)
    requires Extends(res, res') && Settled(local, res, n, |res.viewsToRegister|)
    ensures Settled(local, res', n, |res'.viewsToRegister|)
  {
    SchemaStays(res, res', n);
    if j :| 0 <= j < |res.viewsToRegister| && res.viewsToRegister[j].name == n {
      assert res'.viewsToRegister[j].name == n;
    }
  }

  function WithSchema(res: LoadResult, s: Name): LoadResult {
    res.(loadedSchemas := res.loadedSchemas + [s])
  }

  function WithView(res: LoadResult, v: StoredView): LoadResult {
    res.(viewsToRegister := res.viewsToRegister + [v], loadedViews := res.loadedViews + [v.name])
  }

  function Noted(res: LoadResult, n: Name): LoadResult {
    res.(alreadyLoaded := res.alreadyLoaded + [n])
  }

  lemma NoteKeepsCollected(svc: Service, local: Local, res: LoadResult, n: Name)
    requires Collected(svc, local, res)
    ensures Collected(svc, local, Noted(res, n)) && Extends(res, Noted(res, n))
  {
    forall k | 0 <= k < |res.viewsToRegister| ensures ViewReady(svc, local, Noted(res, n), k) {
      ReadyStays(svc, local, res, Noted(res, n), k);
    }
  }

  lemma SchemaKeepsCollected(svc: Service, local: Local, res: LoadResult, s: Name)
    requires Collected(svc, local, res) && s in svc.schemas
    ensures Collected(svc, local, WithSchema(res, s)) && Extends(res, WithSchema(res, s))
  {
    var res' := WithSchema(res, s);
    forall k | 0 <= k < |res'.viewsToRegister| ensures ViewReady(svc, local, res', k) {
      ReadyStays(svc, local, res, res', k);
    }
  }

  lemma ViewKeepsCollected(svc: Service, local: Local, res: LoadResult, v: StoredView)
    requires Collected(svc, local, res) && !Queued(res, v.name)
    requires Loadable(svc, v.name) && v == svc.views[v.name]
    requires forall s | s in v.sources :: Settled(local, res, s, |res.viewsToRegister|)
    requires v.outputSchema in local.schemas || v.outputSchema in res.loadedSchemas
    ensures Collected(svc, local, WithView(res, v)) && Extends(res, WithView(res, v))
    ensures Queued(WithView(res, v), v.name)
  {
    var res' := WithView(res, v);
    var n := |res.viewsToRegister|;
    forall k | 0 <= k < |res'.viewsToRegister| ensures ViewReady(svc, local, res', k) {
      if k < n {
        ReadyStays(svc, local, res, res', k);
      } else {
        forall s | s in v.sources ensures Settled(local, res', s, n) {
          assert Settled(local, res, s, n);
          if j :| 0 <= j < n && res.viewsToRegister[j].name == s {
            assert res'.viewsToRegister[j].name == s;
          }
        }
      }
    }
    forall i | 0 <= i < n ensures res.viewsToRegister[i].name != v.name {
      assert res.viewsToRegister[i] in res.viewsToRegister;
    }
    assert res'.viewsToRegister[n] == v;
  }

  // ---- The order in which views are met ----

  /** Along the path, every source listed before the next view is already queued. */
  ghost predicate Swept(svc: Service, local: Local, res: LoadResult, p: seq<Name>) {
    forall i, j, s |
      0 <= i < j < |p| && j == i + 1 && Follows(svc, local, p[i], s) && ListsBefore(svc, p[i], s, p[j]) ::
      Queued(res, s)
  }

  /** Every queued view was first met within the limit. */
  ghost predicate MetShallow(svc: Service, local: Local, root: Name, res: LoadResult) {
    forall n | Queued(res, n) :: FirstMet(svc, local, root, n)
  }

  ghost predicate FirstMet(svc: Service, local: Local, root: Name, n: Name) {
    exists p :: FirstPath(svc, local, p) && p[0] == root && p[|p| - 1] == n && |p| - 1 <= 16
  }

  lemma SuffixIsPath(svc: Service, local: Local, p: seq<Name>, i: nat)
    requires IsPath(svc, local, p) && i < |p|
    ensures IsPath(svc, local, p[i..])
  {
  }

  /** An earlier path to the same view would have queued it. */
  lemma SweptIsFirst(svc: Service, local: Local, res: LoadResult, p: seq<Name>)
    requires Collected(svc, local, res) && IsPath(svc, local, p) && Swept(svc, local, res, p)
    requires !Queued(res, p[|p| - 1])
    ensures FirstPath(svc, local, p)
  {
    forall q | IsPath(svc, local, q) && q[0] == p[0] && q[|q| - 1] == p[|p| - 1] ensures !Earlier(svc, q, p) {
      if Earlier(svc, q, p) {
        EarlierIsQueued(svc, local, res, p, q);
      }
    }
  }

  lemma PartedIsQueued(svc: Service, local: Local, res: LoadResult, p: seq<Name>, q: seq<Name>, i: nat)
    requires Swept(svc, local, res, p) && IsPath(svc, local, q)
    requires i < |q| - 1 && i < |p| - 1 && q[..i + 1] == p[..i + 1] && ListsBefore(svc, p[i], q[i + 1], p[i + 1])
    ensures Queued(res, q[i + 1])
  {
    assert q[i] == q[..i + 1][i] == p[i];
    assert Follows(svc, local, q[i], q[i + 1]);
  }

  lemma SuffixIsQueued(svc: Service, local: Local, res: LoadResult, q: seq<Name>, i: nat)
    requires Collected(svc, local, res) && IsPath(svc, local, q) && i < |q| && Queued(res, q[i])
    ensures Queued(res, q[|q| - 1])
  {
    SuffixIsPath(svc, local, q, i);
    PathsRunBackwards(svc, local, res, q[i..]);
  }

  lemma EarlierIsQueued(svc: Service, local: Local, res: LoadResult, p: seq<Name>, q: seq<Name>)
    requires Collected(svc, local, res) && Swept(svc, local, res, p) && IsPath(svc, local, q) && Earlier(svc, q, p)
    ensures Queued(res, q[|q| - 1])
  {
    var i :| 0 <= i < |q| - 1 && i < |p| - 1 && q[..i + 1] == p[..i + 1]
             && ListsBefore(svc, p[i], q[i + 1], p[i + 1]);
    PartedIsQueued(svc, local, res, p, q, i);
    SuffixIsQueued(svc, local, res, q, i + 1);
  }

  lemma SweptGrows(svc: Service, local: Local, res: LoadResult, res': LoadResult, p: seq<Name>)
    requires Swept(svc, local, res, p) && Extends(res, res')
    ensures Swept(svc, local, res', p)
  {
    forall n { SchemaStays(res, res', n); }
  }

  lemma SettledIsQueued(svc: Service, local: Local, res: LoadResult, v: Name, s: Name)
    requires Collected(svc, local, res) && Follows(svc, local, v, s)
    requires Settled(local, res, s, |res.viewsToRegister|)
    ensures Queued(res, s)
  {
    var j :| 0 <= j < |res.viewsToRegister| && res.viewsToRegister[j].name == s;
    assert res.viewsToRegister[j] in res.viewsToRegister;
  }

  /** When the loop stands at a source, the sources listed before it are settled. */
  lemma SweptSnoc(svc: Service, local: Local, res: LoadResult, p: seq<Name>, sources: seq<Name>, i: nat)
    requires Collected(svc, local, res) && p != [] && Swept(svc, local, res, p)
    requires p[|p| - 1] in svc.views && sources == svc.views[p[|p| - 1]].sources && i < |sources|
    requires forall s | s in sources[..i] :: Settled(local, res, s, |res.viewsToRegister|)
    ensures Swept(svc, local, res, p + [sources[i]])
  {
    var v, q := p[|p| - 1], p + [sources[i]];
    forall s | Follows(svc, local, v, s) && ListsBefore(svc, v, s, sources[i]) ensures Queued(res, s) {
      var k := IndexOf(sources, s);
      assert IndexOf(sources, sources[i]) <= i;
      assert s == sources[..i][k];
      SettledIsQueued(svc, local, res, v, s);
    }
  }

  lemma QueueMetShallow(svc: Service, local: Local, p: seq<Name>, res: LoadResult, v: StoredView)
    requires FirstPath(svc, local, p) && MetShallow(svc, local, p[0], res)
    requires |p| - 1 <= 16 && v.name == p[|p| - 1]
    ensures MetShallow(svc, local, p[0], WithView(res, v))
  {
    forall n | Queued(WithView(res, v), n) ensures FirstMet(svc, local, p[0], n) {
      QueuedAfter(res, v, n);
    }
  }

  lemma SameQueueMetShallow(svc: Service, local: Local, root: Name, res: LoadResult, res': LoadResult)
    requires MetShallow(svc, local, root, res) && res'.viewsToRegister == res.viewsToRegister
    ensures MetShallow(svc, local, root, res')
  {
    forall n | Queued(res', n) ensures FirstMet(svc, local, root, n) {
      assert Queued(res, n);
    }
  }

  // ---- Which schemas are queued and which names are noted ----

  /** The view needs the schema `s`, and it is not local. */
  predicate Wants(svc: Service, local: Local, v: Name, s: Name) {
    && v in svc.views && s !in local.schemas
    && (s == svc.views[v].outputSchema || (s in svc.views[v].sources && !local.Has(s)))
  }

  ghost predicate SomeWants(svc: Service, local: Local, res: LoadResult, chain: seq<Name>, s: Name) {
    exists v :: (v in chain || Queued(res, v)) && Wants(svc, local, v, s)
  }

  /** Every queued schema is wanted by a queued view or one on the call chain. */
  ghost predicate OnlyWanted(svc: Service, local: Local, res: LoadResult, chain: seq<Name>) {
    forall s | s in res.loadedSchemas :: SomeWants(svc, local, res, chain, s)
  }

  lemma WantedStays(svc: Service, local: Local, res: LoadResult, chain: seq<Name>, res': LoadResult,
                    chain': seq<Name>, s: Name)
    requires SomeWants(svc, local, res, chain, s) && Extends(res, res')
    requires forall v | v in chain :: v in chain' || Queued(res', v)
    ensures SomeWants(svc, local, res', chain', s)
  {
    var v :| (v in chain || Queued(res, v)) && Wants(svc, local, v, s);
    SchemaStays(res, res', v);
  }

  lemma OnlyWantedStays(svc: Service, local: Local, res: LoadResult, chain: seq<Name>, res': LoadResult,
                        chain': seq<Name>)
    requires OnlyWanted(svc, local, res, chain) && Extends(res, res') && res'.loadedSchemas == res.loadedSchemas
    requires forall v | v in chain :: v in chain' || Queued(res', v)
    ensures OnlyWanted(svc, local, res', chain')
  {
    forall s | s in res'.loadedSchemas ensures SomeWants(svc, local, res', chain', s) {
      WantedStays(svc, local, res, chain, res', chain', s);
    }
  }

  lemma WantedSchemaJoins(svc: Service, local: Local, res: LoadResult, chain: seq<Name>, v: Name, s: Name)
    requires OnlyWanted(svc, local, res, chain) && v in chain && Wants(svc, local, v, s)
    ensures OnlyWanted(svc, local, WithSchema(res, s), chain)
  {
    var res' := WithSchema(res, s);
    forall x | x in res'.loadedSchemas ensures SomeWants(svc, local, res', chain, x) {
      if x == s {
        assert v in chain && Wants(svc, local, v, x);
      } else {
        WantedStays(svc, local, res, chain, res', chain, x);
      }
    }
  }

  /** The sources that are local. */
  function LocalOf(local: Local, sources: seq<Name>): seq<Name> {
    if sources == [] then [] else
      var s := sources[|sources| - 1];
      LocalOf(local, sources[..|sources| - 1]) + (if local.Has(s) then [s] else [])
  }

  /** The local sources of some views, as often as they are listed. */
  ghost function NotesOf(local: Local, vs: seq<StoredView>): multiset<Name> {
    if vs == [] then multiset{} else
      NotesOf(local, vs[..|vs| - 1]) + multiset(LocalOf(local, vs[|vs| - 1].sources))
  }

  /** The output schemas of some views that are not local. */
  ghost function OutsOf(local: Local, vs: seq<StoredView>): multiset<Name> {
    if vs == [] then multiset{} else
      var s := vs[|vs| - 1].outputSchema;
      OutsOf(local, vs[..|vs| - 1]) + (if s in local.schemas then multiset{} else multiset{s})
  }

  lemma {:induction false} NotesAppend(local: Local, a: seq<StoredView>, b: seq<StoredView>)
    ensures NotesOf(local, a + b) == NotesOf(local, a) + NotesOf(local, b)
  {
    if b == [] {
      assert a + b == a;
    } else {
      var n := |b| - 1;
      NotesAppend(local, a, b[..n]);
      SnocOf(a, b);
      assert NotesOf(local, a + b) == NotesOf(local, a + b[..n]) + multiset(LocalOf(local, b[n].sources));
    }
  }

  lemma {:induction false} OutsAppend(local: Local, a: seq<StoredView>, b: seq<StoredView>)
    ensures OutsOf(local, a + b) == OutsOf(local, a) + OutsOf(local, b)
  {
    if b == [] {
      assert a + b == a;
    } else {
      OutsAppend(local, a, b[..|b| - 1]);
      SnocOf(a, b);
    }
  }

  lemma SnocOf(a: seq<StoredView>, b: seq<StoredView>)
    requires b != []
    ensures var c := a + b; c[..|c| - 1] == a + b[..|b| - 1] && c[|c| - 1] == b[|b| - 1]
  {
  }

  ghost predicate OneAtMost(outs: multiset<Name>, res0: LoadResult, res: LoadResult, s: Name) {
    var before, after := multiset(res0.loadedSchemas)[s], multiset(res.loadedSchemas)[s];
    before + outs[s] <= after <= before + outs[s] + (if s in res0.loadedSchemas then 0 else 1)
  }

  /** From `res0` to `res`: `notes` are noted; `outs` are queued, and at most once more a schema not queued before. */
  ghost predicate Tally(res0: LoadResult, res: LoadResult, notes: multiset<Name>, outs: multiset<Name>) {
    && multiset(res.alreadyLoaded) == multiset(res0.alreadyLoaded) + notes
    && forall s :: OneAtMost(outs, res0, res, s)
  }

  lemma TallyTransitive(a: LoadResult, b: LoadResult, c: LoadResult, n1: multiset<Name>, o1: multiset<Name>,
                        n2: multiset<Name>, o2: multiset<Name>)
    requires Tally(a, b, n1, o1) && Tally(b, c, n2, o2)
    ensures Tally(a, c, n1 + n2, o1 + o2)
  {
    forall s ensures OneAtMost(o1 + o2, a, c, s) {
      assert OneAtMost(o1, a, b, s) && OneAtMost(o2, b, c, s);
      assert s in b.loadedSchemas <==> multiset(b.loadedSchemas)[s] > 0;
      assert s in a.loadedSchemas <==> multiset(a.loadedSchemas)[s] > 0;
    }
  }

  lemma TallyNothing(res: LoadResult, res': LoadResult)
    requires res'.alreadyLoaded == res.alreadyLoaded && res'.loadedSchemas == res.loadedSchemas
    ensures Tally(res, res', multiset{}, multiset{})
  {
  }

  lemma TallyNote(res: LoadResult, n: Name)
    ensures Tally(res, Noted(res, n), multiset{n}, multiset{})
  {
  }

  /** A source schema is queued only when it was not before. */
  lemma TallySource(res: LoadResult, s: Name)
    requires s !in res.loadedSchemas
    ensures Tally(res, WithSchema(res, s), multiset{}, multiset{})
  {
    assert multiset(res.loadedSchemas + [s]) == multiset(res.loadedSchemas) + multiset{s};
  }

  /** An output schema is queued even when it was before. */
  lemma TallyOutput(res: LoadResult, s: Name)
    ensures Tally(res, WithSchema(res, s), multiset{}, multiset{s})
  {
    assert multiset(res.loadedSchemas + [s]) == multiset(res.loadedSchemas) + multiset{s};
  }

  /** The views that `res` has queued beyond `res0`. */
  function NewViews(res0: LoadResult, res: LoadResult): seq<StoredView>
    requires |res0.viewsToRegister| <= |res.viewsToRegister|
  {
    res.viewsToRegister[|res0.viewsToRegister|..]
  }

  /** Loading notes the local sources of the views it queues, and queues their output schemas. */
  ghost predicate ViewTally(local: Local, res0: LoadResult, res: LoadResult)
    requires |res0.viewsToRegister| <= |res.viewsToRegister|
  {
    Tally(res0, res, NotesOf(local, NewViews(res0, res)), OutsOf(local, NewViews(res0, res)))
  }

  /** The same while the first sources of a view are worked off. */
  ghost predicate SourceTally(local: Local, res0: LoadResult, res: LoadResult, sources: seq<Name>)
    requires |res0.viewsToRegister| <= |res.viewsToRegister|
  {
    var vs := NewViews(res0, res);
    Tally(res0, res, NotesOf(local, vs) + multiset(LocalOf(local, sources)), OutsOf(local, vs))
  }

  lemma LocalOfNext(local: Local, sources: seq<Name>, i: nat)
    requires i < |sources|
    ensures multiset(LocalOf(local, sources[..i + 1])) ==
            multiset(LocalOf(local, sources[..i])) +
              (if local.Has(sources[i]) then multiset{sources[i]} else multiset{})
  {
    assert sources[..i + 1][..i] == sources[..i];
  }

  lemma SourceTallyStarts(local: Local, res: LoadResult, sources: seq<Name>)
    ensures SourceTally(local, res, res, sources[..0])
  {
    TallyNothing(res, res);
    assert NewViews(res, res) == [] && sources[..0] == [];
  }

  /** One more source, which queued no view. */
  lemma SourceTallyStep(local: Local, res0: LoadResult, was: LoadResult, res: LoadResult, sources: seq<Name>, i: nat)
    requires i < |sources| && res0.viewsToRegister <= was.viewsToRegister == res.viewsToRegister
    requires SourceTally(local, res0, was, sources[..i])
    requires Tally(was, res, if local.Has(sources[i]) then multiset{sources[i]} else multiset{}, multiset{})
    ensures SourceTally(local, res0, res, sources[..i + 1])
  {
    var vs, first := NewViews(res0, was), multiset(LocalOf(local, sources[..i]));
    var note: multiset<Name> := if local.Has(sources[i]) then multiset{sources[i]} else multiset{};
    LocalOfNext(local, sources, i);
    TallyTransitive(res0, was, res, NotesOf(local, vs) + first, OutsOf(local, vs), note, multiset{});
    assert NotesOf(local, vs) + first + note == NotesOf(local, vs) + (first + note);
    assert OutsOf(local, vs) + multiset{} == OutsOf(local, vs);
  }

  lemma NewViewsSplit(res0: LoadResult, was: LoadResult, res: LoadResult)
    requires res0.viewsToRegister <= was.viewsToRegister <= res.viewsToRegister
    ensures |res0.viewsToRegister| <= |res.viewsToRegister|
    ensures NewViews(res0, res) == NewViews(res0, was) + NewViews(was, res)
  {
  }

  lemma Regroup(a: multiset<Name>, b: multiset<Name>, first: multiset<Name>)
    ensures a + first + b == a + b + (first + multiset{})
  {
  }

  /** One more source, which was loaded as a view. */
  lemma SourceTallyView(local: Local, res0: LoadResult, was: LoadResult, res: LoadResult, sources: seq<Name>, i: nat)
    requires i < |sources| && !local.Has(sources[i])
    requires res0.viewsToRegister <= was.viewsToRegister <= res.viewsToRegister
    requires SourceTally(local, res0, was, sources[..i]) && ViewTally(local, was, res)
    ensures |res0.viewsToRegister| <= |res.viewsToRegister| && SourceTally(local, res0, res, sources[..i + 1])
  {
    var a, b, first := NewViews(res0, was), NewViews(was, res), multiset(LocalOf(local, sources[..i]));
    NewViewsSplit(res0, was, res);
    NotesAppend(local, a, b);
    OutsAppend(local, a, b);
    LocalOfNext(local, sources, i);
    Regroup(NotesOf(local, a), NotesOf(local, b), first);
    TallyTransitive(res0, was, res, NotesOf(local, a) + first, OutsOf(local, a), NotesOf(local, b), OutsOf(local, b));
  }

  /** The output schema of the view, unless it is local. */
  function OutOf(local: Local, v: StoredView): multiset<Name> {
    if v.outputSchema in local.schemas then multiset{} else multiset{v.outputSchema}
  }

  lemma TallyOfOutput(local: Local, res0: LoadResult, v: StoredView)
    ensures Tally(res0, AfterOutput(local, res0, v), multiset{}, OutOf(local, v))
  {
    if v.outputSchema in local.schemas {
      TallyNothing(res0, res0);
    } else {
      TallyOutput(res0, v.outputSchema);
    }
  }

  /** What the view itself adds to the tallies. */
  lemma TalliesSnoc(local: Local, vs: seq<StoredView>, v: StoredView)
    ensures NotesOf(local, vs + [v]) == NotesOf(local, vs) + multiset(LocalOf(local, v.sources))
    ensures OutsOf(local, vs + [v]) == OutsOf(local, vs) + OutOf(local, v)
  {
    assert (vs + [v])[..|vs|] == vs;
  }

  /** From before the output schema to after the view. */
  lemma TallyAround(res0: LoadResult, res1: LoadResult, was: LoadResult, v: StoredView, out: multiset<Name>,
                    notes: multiset<Name>, outs: multiset<Name>)
    requires Tally(res0, res1, multiset{}, out) && Tally(res1, was, notes, outs)
    ensures Tally(res0, WithView(was, v), notes, outs + out)
  {
    TallyTransitive(res0, res1, was, multiset{}, out, notes, outs);
    assert multiset{} + notes == notes && out + outs == outs + out;
    forall s ensures OneAtMost(outs + out, res0, WithView(was, v), s) {
      assert OneAtMost(out + outs, res0, was, s);
    }
  }

  lemma NewViewsSnoc(res0: LoadResult, res1: LoadResult, was: LoadResult, v: StoredView)
    requires res1.viewsToRegister == res0.viewsToRegister <= was.viewsToRegister
    ensures NewViews(res0, WithView(was, v)) == NewViews(res1, was) + [v]
  {
  }

  /** The whole view: its output schema, its sources, and itself. */
  lemma ViewTallyCloses(local: Local, res0: LoadResult, res1: LoadResult, was: LoadResult, v: StoredView)
    requires res1 == AfterOutput(local, res0, v)
    requires res1.viewsToRegister <= was.viewsToRegister && SourceTally(local, res1, was, v.sources)
    ensures ViewTally(local, res0, WithView(was, v))
  {
    var vs := NewViews(res1, was);
    TallyOfOutput(local, res0, v);
    NewViewsSnoc(res0, res1, was, v);
    TalliesSnoc(local, vs, v);
    TallyAround(res0, res1, was, v, OutOf(local, v), NotesOf(local, vs) + multiset(LocalOf(local, v.sources)),
                OutsOf(local, vs));
  }

  // ---- Loading ----

  /**
   Fetches `name` and what it needs. `chain` is the active call chain above it, so `depth == |chain|`;
   on failure `why` is a dependency path that justifies the error. The source's later test for an
   already queued name never fires, because queued names are in `loading`.
   */
  method LoadViewRecursive(svc: Service, local: Local, name: Name, loading0: set<Name>, res0: LoadResult, depth: nat,
                           ghost chain: seq<Name>)
    returns (r: Result<(), LoadError>, loading: set<Name>, res: LoadResult, ghost why: seq<Name>)
    requires Honest(svc) && depth == |chain| <= MAX_VIEW_LOAD_DEPTH + 1
    requires IsPath(svc, local, chain + [name]) && (chain != [] ==> !local.Has(name))
    requires Collected(svc, local, res0) && LoadingIs(loading0, chain, res0)
    requires NoneQueued(chain, res0) && !Queued(res0, name)
    requires Swept(svc, local, res0, chain + [name]) && MetShallow(svc, local, (chain + [name])[0], res0)
    requires OnlyWanted(svc, local, res0, chain)
    ensures r.Ok? ==> MetShallow(svc, local, (chain + [name])[0], res) && OnlyWanted(svc, local, res, chain)
    ensures r.Ok? && name !in local.views ==>
              |res0.viewsToRegister| <= |res.viewsToRegister| && ViewTally(local, res0, res)
    ensures r.Err? ==> Justifies(svc, local, why, r.error) && why[0] == (chain + [name])[0]
    ensures r.Err? && chain == [] ==> name !in local.views
    ensures r.Ok? ==> Collected(svc, local, res) && Extends(res0, res) && NoneQueued(chain, res)
    ensures r.Ok? && name in local.views ==> res == Noted(res0, name)
    ensures r.Ok? && name !in local.views ==> Queued(res, name) && LoadingIs(loading, chain, res)
    decreases MAX_VIEW_LOAD_DEPTH + 1 - depth, 1
  {
    loading, res, why := loading0, res0, chain + [name];
    ghost var path := why;
    SweptIsFirst(svc, local, res, path);
    if depth > MAX_VIEW_LOAD_DEPTH {
      return Err(TooDeep(name)), loading, res, why;
    }
    if name in loading {
      assert why[..|why| - 1] == chain;
      return Err(Circular(name)), loading, res, why;
    }
    loading := loading + {name};
    if name in local.views {
      NoteKeepsCollected(svc, local, res, name);
      SameQueueMetShallow(svc, local, path[0], res, Noted(res, name));
      OnlyWantedStays(svc, local, res, chain, Noted(res, name), chain);
      res := Noted(res, name);
      return Ok(()), loading, res, why;
    }
    if name !in svc.views {
      return Err(ViewMissing(name)), loading, res, why;
    }
    var view := svc.views[name];
    if view.outputSchema !in svc.schemas {
      return Err(OutputMissing(name, view.outputSchema)), loading, res, why;
    }
    EnterView(svc, local, loading0, chain, name, res);
    if view.outputSchema !in local.schemas {
      res := WithSchema(res, view.outputSchema);
    }
    ghost var res1 := res;
    r, loading, res, why := LoadSources(svc, local, view, loading, res, depth, chain);
    if r.Ok? {
      LeaveView(svc, local, loading, chain, res0, res1, res, view);
      LeaveTally(svc, local, loading, chain, res0, res1, res, view);
      res := WithView(res, view);
    }
  }

  function AfterOutput(local: Local, res: LoadResult, v: StoredView): LoadResult {
    if v.outputSchema in local.schemas then res else WithSchema(res, v.outputSchema)
  }

  /** The view joins the chain and its output schema is queued unless it is local. */
  lemma EnterView(svc: Service, local: Local, loading: set<Name>, chain: seq<Name>, name: Name, res: LoadResult)
    requires Honest(svc) && Loadable(svc, name) && IsPath(svc, local, chain + [name])
    requires Collected(svc, local, res) && LoadingIs(loading, chain, res)
    requires NoneQueued(chain, res) && !Queued(res, name) && OnlyWanted(svc, local, res, chain)
    requires Swept(svc, local, res, chain + [name]) && MetShallow(svc, local, (chain + [name])[0], res)
    ensures var res1, path := AfterOutput(local, res, svc.views[name]), chain + [name];
            && Working(svc, local, loading + {name}, path, res1, res1, svc.views[name].sources, 0)
            && Swept(svc, local, res1, path) && Extends(res, res1)
  {
    var path, out := chain + [name], svc.views[name].outputSchema;
    var res1 := AfterOutput(local, res, svc.views[name]);
    ChainGrows(loading, chain, res, name);
    OnlyWantedStays(svc, local, res, chain, res, path);
    SourceTallyStarts(local, res1, svc.views[name].sources);
    if out !in local.schemas {
      WantedSchemaJoins(svc, local, res, path, name, out);
      SchemaKeepsCollected(svc, local, res, out);
      SchemaKeepsQueue(loading + {name}, path, res, out);
      SweptGrows(svc, local, res, res1, path);
      SameQueueMetShallow(svc, local, path[0], res, res1);
    }
  }

  /** The view is queued and leaves the chain. */
  lemma LeaveView(svc: Service, local: Local, loading: set<Name>, chain: seq<Name>, res0: LoadResult,
                  res1: LoadResult, was: LoadResult, v: StoredView)
    requires v.name in svc.views && v == svc.views[v.name] && Loadable(svc, v.name) && v.name !in chain
    requires res1 == AfterOutput(local, res0, v)
    requires Working(svc, local, loading, chain + [v.name], res1, was, v.sources, |v.sources|)
    requires FirstPath(svc, local, chain + [v.name]) && |chain| <= 16
    ensures var res := WithView(was, v);
            && Collected(svc, local, res) && Extends(res0, res) && NoneQueued(chain, res) && Queued(res, v.name)
            && LoadingIs(loading, chain, res) && MetShallow(svc, local, (chain + [v.name])[0], res)
            && OnlyWanted(svc, local, res, chain)
  {
    var res, path := WithView(was, v), chain + [v.name];
    assert v.sources[..|v.sources|] == v.sources;
    assert Queued(was, v.name) ==> v.name in path;
    SchemaStays(res1, was, v.outputSchema);
    ViewKeepsCollected(svc, local, was, v);
    QueueMetShallow(svc, local, path, was, v);
    OnlyWantedStays(svc, local, was, path, res, chain);
    ChainShrinks(loading, chain, was, v);
    ExtendsTransitive(res0, res1, was);
    ExtendsTransitive(res0, was, res);
  }

  lemma LeaveTally(svc: Service, local: Local, loading: set<Name>, chain: seq<Name>, res0: LoadResult,
                   res1: LoadResult, was: LoadResult, v: StoredView)
    requires res1 == AfterOutput(local, res0, v)
    requires Working(svc, local, loading, chain + [v.name], res1, was, v.sources, |v.sources|)
    ensures |res0.viewsToRegister| <= |was.viewsToRegister| && ViewTally(local, res0, WithView(was, v))
  {
    assert v.sources[..|v.sources|] == v.sources;
    ViewTallyCloses(local, res0, res1, was, v);
  }

  /** Once its view is queued, the loaded name leaves the chain but stays among the loading names. */
  lemma ChainShrinks(loading: set<Name>, chain: seq<Name>, res: LoadResult, v: StoredView)
    requires LoadingIs(loading, chain + [v.name], res) && NoneQueued(chain + [v.name], res) && v.name !in chain
    ensures LoadingIs(loading, chain, WithView(res, v)) && NoneQueued(chain, WithView(res, v))
  {
    forall n { QueuedAfter(res, v, n); }
    assert forall n :: n in chain + [v.name] <==> n in chain || n == v.name;
  }

  /** A name that starts loading joins the chain. */
  lemma ChainGrows(loading: set<Name>, chain: seq<Name>, res: LoadResult, name: Name)
    requires LoadingIs(loading, chain, res) && NoneQueued(chain, res) && !Queued(res, name)
    ensures LoadingIs(loading + {name}, chain + [name], res) && NoneQueued(chain + [name], res)
  {
    assert forall n :: n in chain + [name] <==> n in chain || n == name;
  }

  lemma PathSnoc(svc: Service, local: Local, p: seq<Name>, s: Name)
    requires IsPath(svc, local, p) && Follows(svc, local, p[|p| - 1], s)
    ensures IsPath(svc, local, p + [s])
  {
  }

  lemma ExtendsTransitive(a: LoadResult, b: LoadResult, c: LoadResult)
    requires Extends(a, b) && Extends(b, c)
    ensures Extends(a, c)
  {
  }

  /** Queueing a schema changes none of the views. */
  lemma SchemaKeepsQueue(loading: set<Name>, chain: seq<Name>, res: LoadResult, s: Name)
    requires LoadingIs(loading, chain, res) && NoneQueued(chain, res)
    ensures LoadingIs(loading, chain, WithSchema(res, s)) && NoneQueued(chain, WithSchema(res, s))
  {
    assert forall n :: Queued(WithSchema(res, s), n) <==> Queued(res, n);
  }

  /** One more source is settled, and the earlier ones stay so. */
  lemma SettleOne(local: Local, was: LoadResult, res: LoadResult, sources: seq<Name>, i: nat)
    requires i < |sources| && Extends(was, res)
    requires forall s | s in sources[..i] :: Settled(local, was, s, |was.viewsToRegister|)
    requires Settled(local, res, sources[i], |res.viewsToRegister|)
    ensures forall s | s in sources[..i + 1] :: Settled(local, res, s, |res.viewsToRegister|)
  {
    assert sources[..i + 1] == sources[..i] + [sources[i]];
    forall s | s in sources[..i] ensures Settled(local, res, s, |res.viewsToRegister|) {
      SettledStays(local, was, res, s);
    }
  }

  lemma QueuedSettles(local: Local, res: LoadResult, n: Name)
    requires Queued(res, n)
    ensures Settled(local, res, n, |res.viewsToRegister|)
  {
    var v :| v in res.viewsToRegister && v.name == n;
    var j :| 0 <= j < |res.viewsToRegister| && res.viewsToRegister[j] == v;
  }

  lemma QueuedAfter(res: LoadResult, v: StoredView, n: Name)
    ensures Queued(WithView(res, v), n) <==> Queued(res, n) || n == v.name
  {
    if Queued(res, n) {
      SchemaStays(res, WithView(res, v), n);
    }
    assert WithView(res, v).viewsToRegister[|res.viewsToRegister|] == v;
  }

  /** The source loop of `load_view_recursive`. */
  method LoadSources(svc: Service, local: Local, view: StoredView, loading0: set<Name>, res0: LoadResult, depth: nat,
                     ghost chain: seq<Name>)
    returns (r: Result<(), LoadError>, loading: set<Name>, res: LoadResult, ghost why: seq<Name>)
    requires Honest(svc) && depth == |chain| <= MAX_VIEW_LOAD_DEPTH
    requires Loadable(svc, view.name) && view == svc.views[view.name]
    requires IsPath(svc, local, chain + [view.name]) && Swept(svc, local, res0, chain + [view.name])
    requires Working(svc, local, loading0, chain + [view.name], res0, res0, view.sources, 0)
    ensures r.Err? ==> Justifies(svc, local, why, r.error) && why[0] == (chain + [view.name])[0]
    ensures r.Ok? ==> Working(svc, local, loading, chain + [view.name], res0, res, view.sources, |view.sources|)
    decreases MAX_VIEW_LOAD_DEPTH + 1 - depth, 0
  {
    ghost var path := chain + [view.name];
    loading, res, why := loading0, res0, [];
    for i := 0 to |view.sources|
      invariant Working(svc, local, loading, path, res0, res, view.sources, i)
    {
      var source := view.sources[i];
      ghost var was := res;
      if local.Has(source) {
        AfterLocal(svc, local, loading, path, res0, res, view.sources, i);
        res := Noted(res, source);
      } else if Queued(res, source) || source in res.loadedSchemas {
        AfterQueued(svc, local, loading, path, res0, res, view.sources, i);
      } else if source in svc.schemas {
        AfterSchema(svc, local, loading, path, res0, res, view, i);
        res := WithSchema(res, source);
      } else {
        PathSnoc(svc, local, path, source);
        SweptGrows(svc, local, res0, res, path);
        SweptSnoc(svc, local, res, path, view.sources, i);
        ghost var loading1 := loading;
        r, loading, res, why := LoadViewRecursive(svc, local, source, loading, res, depth + 1, path);
        if r.Err? { return; }
        AfterView(svc, local, loading1, loading, path, res0, was, res, view.sources, i);
      }
    }
    return Ok(()), loading, res, why;
  }

  /** What holds while the first `i` sources of the last view on the path are worked off. */
  ghost predicate Working(svc: Service, local: Local, loading: set<Name>, path: seq<Name>, res0: LoadResult,
                          res: LoadResult, sources: seq<Name>, i: nat)
  {
    && path != [] && i <= |sources|
    && Collected(svc, local, res) && Extends(res0, res) && LoadingIs(loading, path, res)
    && NoneQueued(path, res) && MetShallow(svc, local, path[0], res)
    && (forall s | s in sources[..i] :: Settled(local, res, s, |res.viewsToRegister|))
    && OnlyWanted(svc, local, res, path) && SourceTally(local, res0, res, sources[..i])
  }

  lemma AfterLocal(svc: Service, local: Local, loading: set<Name>, path: seq<Name>, res0: LoadResult,
                   res: LoadResult, sources: seq<Name>, i: nat)
    requires i < |sources| && Working(svc, local, loading, path, res0, res, sources, i) && local.Has(sources[i])
    ensures Working(svc, local, loading, path, res0, Noted(res, sources[i]), sources, i + 1)
  {
    var res' := Noted(res, sources[i]);
    NoteKeepsCollected(svc, local, res, sources[i]);
    SameQueueMetShallow(svc, local, path[0], res, res');
    TallyNote(res, sources[i]);
    OnlyWantedStays(svc, local, res, path, res', path);
    SourceTallyStep(local, res0, res, res', sources, i);
    SettleOne(local, res, res', sources, i);
    ExtendsTransitive(res0, res, res');
  }

  lemma AfterQueued(svc: Service, local: Local, loading: set<Name>, path: seq<Name>, res0: LoadResult,
                    res: LoadResult, sources: seq<Name>, i: nat)
    requires i < |sources| && Working(svc, local, loading, path, res0, res, sources, i) && !local.Has(sources[i])
    requires Queued(res, sources[i]) || sources[i] in res.loadedSchemas
    ensures Working(svc, local, loading, path, res0, res, sources, i + 1)
  {
    if Queued(res, sources[i]) { QueuedSettles(local, res, sources[i]); }
    TallyNothing(res, res);
    SourceTallyStep(local, res0, res, res, sources, i);
    SettleOne(local, res, res, sources, i);
  }

  lemma AfterSchema(svc: Service, local: Local, loading: set<Name>, path: seq<Name>, res0: LoadResult,
                    res: LoadResult, view: StoredView, i: nat)
    requires i < |view.sources| && Working(svc, local, loading, path, res0, res, view.sources, i)
    requires view.name in path && view.name in svc.views && view == svc.views[view.name]
    requires !local.Has(view.sources[i]) && view.sources[i] !in res.loadedSchemas && view.sources[i] in svc.schemas
    ensures Working(svc, local, loading, path, res0, WithSchema(res, view.sources[i]), view.sources, i + 1)
  {
    var s, res' := view.sources[i], WithSchema(res, view.sources[i]);
    TallySource(res, s);
    WantedSchemaJoins(svc, local, res, path, view.name, s);
    SourceTallyStep(local, res0, res, res', view.sources, i);
    SchemaKeepsCollected(svc, local, res, s);
    SchemaKeepsQueue(loading, path, res, s);
    SameQueueMetShallow(svc, local, path[0], res, res');
    SettleOne(local, res, res', view.sources, i);
    ExtendsTransitive(res0, res, res');
  }

  lemma AfterView(svc: Service, local: Local, loading0: set<Name>, loading: set<Name>, path: seq<Name>,
                  res0: LoadResult, was: LoadResult, res: LoadResult, sources: seq<Name>, i: nat)
    requires i < |sources| && Working(svc, local, loading0, path, res0, was, sources, i) && !local.Has(sources[i])
    requires Collected(svc, local, res) && Extends(was, res) && LoadingIs(loading, path, res)
    requires NoneQueued(path, res) && MetShallow(svc, local, path[0], res) && OnlyWanted(svc, local, res, path)
    requires Queued(res, sources[i]) && ViewTally(local, was, res)
    ensures Working(svc, local, loading, path, res0, res, sources, i + 1)
  {
    SourceTallyView(local, res0, was, res, sources, i);
    QueuedSettles(local, res, sources[i]);
    SettleOne(local, was, res, sources, i);
    ExtendsTransitive(res0, was, res);
  }

  /** What the fetch phase may return for `root`. */
  ghost predicate Fetched(svc: Service, local: Local, root: Name, r: Result<LoadResult, LoadError>) {
    match r
    case Err(e) => root !in local.views && exists p :: Justifies(svc, local, p, e) && p[0] == root
    case Ok(res) =>
      && Collected(svc, local, res) && MetShallow(svc, local, root, res)
      && OnlyWanted(svc, local, res, [])
      && if root in local.views then res == Noted(NOTHING_LOADED, root)
         else Queued(res, root) && ViewTally(local, NOTHING_LOADED, res)
  }

  /** Only schemas are queued that the service has and that a queued view needs and misses. */
  lemma QueuedSchemaIsWanted(svc: Service, local: Local, root: Name, res: LoadResult, s: Name)
    requires Fetched(svc, local, root, Ok(res)) && s in res.loadedSchemas
    ensures s in svc.schemas && exists v :: Queued(res, v) && Wants(svc, local, v, s)
  {
    assert SomeWants(svc, local, res, [], s);
  }

  /** Every schema that a queued view misses is queued, unless a view of that name is. */
  lemma WantedSchemaIsQueued(svc: Service, local: Local, root: Name, res: LoadResult, v: Name, s: Name)
    requires Fetched(svc, local, root, Ok(res)) && Queued(res, v) && Wants(svc, local, v, s)
    ensures s == svc.views[v].outputSchema || s in svc.schemas ==> s in res.loadedSchemas || Queued(res, s)
    ensures s == svc.views[v].outputSchema ==> s in res.loadedSchemas
  {
    var k := Position(res, v);
    assert ViewReady(svc, local, res, k);
    if s != svc.views[v].outputSchema {
      assert Settled(local, res, s, k);
      if j :| 0 <= j < k && res.viewsToRegister[j].name == s {
        assert res.viewsToRegister[j] in res.viewsToRegister;
      }
    }
  }

  /**
   How often: what is noted are the local sources of the queued views, as often as they list them; a schema is queued
   once for each queued view it is the missing output schema of, and at most once more.
   */
  lemma QueuedHowOften(svc: Service, local: Local, root: Name, res: LoadResult, s: Name)
    requires Fetched(svc, local, root, Ok(res)) && root !in local.views
    ensures multiset(res.alreadyLoaded) == NotesOf(local, res.viewsToRegister)
    ensures var outs := OutsOf(local, res.viewsToRegister)[s]; outs <= multiset(res.loadedSchemas)[s] <= outs + 1
  {
    assert NewViews(NOTHING_LOADED, res) == res.viewsToRegister;
    assert OneAtMost(OutsOf(local, res.viewsToRegister), NOTHING_LOADED, res, s);
  }

  /** The fetch phase: collects everything without touching the local store. */
  method Fetch(svc: Service, local: Local, root: Name) returns (r: Result<LoadResult, LoadError>)
    requires Honest(svc)
    ensures Fetched(svc, local, root, r)
  {
    assert [] + [root] == [root];
    var o, _, res, why := LoadViewRecursive(svc, local, root, {}, NOTHING_LOADED, 0, []);
    match o
    case Err(e) => return Err(e);
    case Ok(_) => return Ok(res);
  }

  // ---- When loading succeeds, and what success means ----

  lemma PathJoin(svc: Service, local: Local, q: seq<Name>, p: seq<Name>, i: nat)
    requires IsPath(svc, local, q) && IsPath(svc, local, p) && i + 1 < |p| && q[|q| - 1] == p[i]
    ensures IsPath(svc, local, q + p[i + 1..])
  {
    var w := q + p[i + 1..];
    forall a, b | 0 <= a < b < |w| && b == a + 1 ensures Follows(svc, local, w[a], w[b]) {
      if a >= |q| - 1 {
        assert w[b] == p[i + 1 + b - |q|];
        assert w[a] == p[i + 1 + a - |q|];
      }
    }
  }

  /** A cycle gives arbitrarily long paths. */
  lemma {:induction false} PumpCycle(svc: Service, local: Local, p: seq<Name>, i: nat, k: nat) returns (q: seq<Name>)
    requires IsPath(svc, local, p) && i + 1 < |p| && p[i] == p[|p| - 1]
    ensures IsPath(svc, local, q) && q[0] == p[0] && q[|q| - 1] == p[i] && |q| >= k
  {
    q := p;
    if k > 0 {
      var shorter := PumpCycle(svc, local, p, i, k - 1);
      PathJoin(svc, local, shorter, p, i);
      q := shorter + p[i + 1..];
    }
  }

  /** A shallow and fully present view never fails to load: in particular diamonds never do. */
  lemma ShallowPresentLoads(svc: Service, local: Local, root: Name, r: Result<LoadResult, LoadError>)
    requires Fetched(svc, local, root, r) && Shallow(svc, local, root) && FullyPresent(svc, local, root)
    ensures r.Ok?
  {
    if r.Err? {
      var p :| Justifies(svc, local, p, r.error) && p[0] == root;
      if r.error.Circular? {
        var i :| 0 <= i < |p| - 1 && p[..|p| - 1][i] == r.error.name;
        var q := PumpCycle(svc, local, p, i, 18);
      }
      assert false;
    }
  }

  /** The position of a queued view. */
  ghost function Position(res: LoadResult, n: Name): (k: nat)
    requires Queued(res, n)
    ensures k < |res.viewsToRegister| && res.viewsToRegister[k].name == n
  {
    var v :| v in res.viewsToRegister && v.name == n;
    var k :| 0 <= k < |res.viewsToRegister| && res.viewsToRegister[k] == v;
    k
  }

  /** A dependency of a queued view is queued strictly before it. */
  lemma DependencyComesFirst(svc: Service, local: Local, res: LoadResult, v: Name, s: Name)
    requires Collected(svc, local, res) && Queued(res, v) && Follows(svc, local, v, s)
    ensures Queued(res, s) && Position(res, s) < Position(res, v)
  {
    var k := Position(res, v);
    assert ViewReady(svc, local, res, k);
    assert Settled(local, res, s, k);
    var j :| 0 <= j < k && res.viewsToRegister[j].name == s;
    assert res.viewsToRegister[j] in res.viewsToRegister;
    assert Position(res, s) == j;
  }

  /** After a successful fetch every dependency path runs through queued views, strictly backwards in the list. */
  lemma {:induction false} PathsRunBackwards(svc: Service, local: Local, res: LoadResult, p: seq<Name>)
    requires Collected(svc, local, res) && IsPath(svc, local, p) && Queued(res, p[0])
    ensures Queued(res, p[|p| - 1]) && Loadable(svc, p[|p| - 1])
    ensures Position(res, p[|p| - 1]) + |p| - 1 <= Position(res, p[0])
  {
    if |p| == 1 {
      assert ViewReady(svc, local, res, Position(res, p[0]));
    } else {
      var q := p[..|p| - 1];
      assert IsPath(svc, local, q);
      PathsRunBackwards(svc, local, res, q);
      DependencyComesFirst(svc, local, res, q[|q| - 1], p[|p| - 1]);
      assert ViewReady(svc, local, res, Position(res, p[|p| - 1]));
    }
  }

  /** Success means everything needed was present and no dependency path closes a cycle. */
  lemma SuccessMeansPresentAndAcyclic(svc: Service, local: Local, root: Name, r: Result<LoadResult, LoadError>)
    requires Fetched(svc, local, root, r) && r.Ok? && root !in local.views
    ensures FullyPresent(svc, local, root) && Acyclic(svc, local, root)
  {
    forall p | IsPath(svc, local, p) && p[0] == root ensures Loadable(svc, p[|p| - 1]) {
      PathsRunBackwards(svc, local, r.value, p);
    }
    forall p, i | IsPath(svc, local, p) && p[0] == root && 0 <= i < |p| - 1 ensures p[i] != p[|p| - 1] {
      NoReturn(svc, local, r.value, p, i);
    }
  }

  lemma NoReturn(svc: Service, local: Local, res: LoadResult, p: seq<Name>, i: nat)
    requires Collected(svc, local, res) && IsPath(svc, local, p) && Queued(res, p[0]) && i < |p| - 1
    ensures p[i] != p[|p| - 1]
  {
    var front, back := p[..i + 1], p[i..];
    assert IsPath(svc, local, front);
    SuffixIsPath(svc, local, p, i);
    PathsRunBackwards(svc, local, res, front);
    PathsRunBackwards(svc, local, res, back);
  }

  /** The first place where two different paths from the same view part. */
  lemma PathsPart(p: seq<Name>, q: seq<Name>) returns (i: nat)
    requires p != [] && q != [] && p[0] == q[0] && p != q
    ensures i < |p| && i < |q| && p[..i + 1] == q[..i + 1]
    ensures i == |p| - 1 || i == |q| - 1 || p[i + 1] != q[i + 1]
  {
    i := 0;
    while i < |p| - 1 && i < |q| - 1 && p[i + 1] == q[i + 1]
      invariant i < |p| && i < |q| && p[..i + 1] == q[..i + 1]
    {
      i := i + 1;
    }
  }

  lemma IndexSeparates(xs: seq<Name>, x: Name, y: Name)
    requires x in xs && y in xs && x != y
    ensures IndexOf(xs, x) != IndexOf(xs, y)
  {
  }

  /** In an acyclic graph, of two different paths to a view one is earlier. */
  lemma OneIsEarlier(svc: Service, local: Local, p: seq<Name>, q: seq<Name>)
    requires IsPath(svc, local, p) && IsPath(svc, local, q) && p[0] == q[0] && p[|p| - 1] == q[|q| - 1] && p != q
    requires Acyclic(svc, local, p[0])
    ensures Earlier(svc, q, p) || Earlier(svc, p, q)
  {
    var i := PathsPart(p, q);
    assert p[i] == p[..i + 1][i] == q[..i + 1][i] == q[i];
    assert i < |p| - 1 ==> p[i] != p[|p| - 1];
    assert i < |q| - 1 ==> q[i] != q[|q| - 1];
    assert p[..|p|] == p && q[..|q|] == q;
    assert Follows(svc, local, p[i], p[i + 1]) && Follows(svc, local, q[i], q[i + 1]);
    IndexSeparates(svc.views[p[i]].sources, p[i + 1], q[i + 1]);
    assert ListsBefore(svc, p[i], q[i + 1], p[i + 1]) || ListsBefore(svc, q[i], p[i + 1], q[i + 1]);
  }

  /** In an acyclic graph a view has only one first path. */
  lemma FirstPathIsUnique(svc: Service, local: Local, p: seq<Name>, q: seq<Name>)
    requires FirstPath(svc, local, p) && FirstPath(svc, local, q) && p[0] == q[0] && p[|p| - 1] == q[|q| - 1]
    requires Acyclic(svc, local, p[0])
    ensures p == q
  {
    if p != q {
      OneIsEarlier(svc, local, p, q);
    }
  }

  lemma SuccessMeansMetShallow(svc: Service, local: Local, root: Name, r: Result<LoadResult, LoadError>)
    requires Fetched(svc, local, root, r) && r.Ok? && root !in local.views && Acyclic(svc, local, root)
    ensures FirstMetShallow(svc, local, root)
  {
    forall p | FirstPath(svc, local, p) && p[0] == root ensures |p| - 1 <= 16 {
      PathsRunBackwards(svc, local, r.value, p);
      assert FirstMet(svc, local, root, p[|p| - 1]);
      var q :| FirstPath(svc, local, q) && q[0] == root && q[|q| - 1] == p[|p| - 1] && |q| - 1 <= 16;
      FirstPathIsUnique(svc, local, p, q);
    }
  }

  /**
   Exactly when loading succeeds: every needed view and output schema is on the service, no dependency path closes
   a cycle, and on the first path to each view, in listing order, it lies within the depth limit.
   */
  lemma LoadsIff(svc: Service, local: Local, root: Name, r: Result<LoadResult, LoadError>)
    requires Fetched(svc, local, root, r) && root !in local.views
    ensures r.Ok? <==> FullyPresent(svc, local, root) && Acyclic(svc, local, root) && FirstMetShallow(svc, local, root)
  {
    if r.Ok? {
      SuccessMeansPresentAndAcyclic(svc, local, root, r);
      SuccessMeansMetShallow(svc, local, root, r);
    } else {
      var p :| Justifies(svc, local, p, r.error) && p[0] == root;
      if r.error.Circular? {
        var i :| 0 <= i < |p| - 1 && p[..|p| - 1][i] == r.error.name;
        assert p[i] == p[|p| - 1];
      }
    }
  }

  /** For a view whose dependency paths stay within the depth limit, loading succeeds exactly when all is present. */
  lemma ShallowLoadsIffPresent(svc: Service, local: Local, root: Name, r: Result<LoadResult, LoadError>)
    requires Fetched(svc, local, root, r) && Shallow(svc, local, root) && root !in local.views
    ensures r.Ok? <==> FullyPresent(svc, local, root)
  {
    if FullyPresent(svc, local, root) {
      ShallowPresentLoads(svc, local, root, r);
    }
    if r.Ok? {
      SuccessMeansPresentAndAcyclic(svc, local, root, r);
    }
  }

  // ---- Registration ----

  /** Every source of a queued view is local, a queued schema, or among the views before it. */
  lemma NextViewIsSupported(svc: Service, local: Local, res: LoadResult, i: nat)
    requires Collected(svc, local, res) && i < |res.viewsToRegister|
    ensures var v := res.viewsToRegister[i];
            && v.name in svc.views && svc.views[v.name] == v
            && (v.outputSchema in local.schemas || v.outputSchema in res.loadedSchemas)
            && forall s | s in v.sources ::
                 local.Has(s) || s in res.loadedSchemas || s in res.loadedViews[..i]
  {
    var vs := res.viewsToRegister;
    assert ViewReady(svc, local, res, i);
    forall s | s in vs[i].sources ensures local.Has(s) || s in res.loadedSchemas || s in res.loadedViews[..i] {
      assert Settled(local, res, s, i);
      if j :| 0 <= j < i && vs[j].name == s {
        assert res.loadedViews[..i][j] == s;
      }
    }
  }

  ghost function Members(names: seq<Name>): set<Name> {
    set n | n in names
  }

  /** The position of the first name that is refused; the length when none is. */
  function FirstRefused(names: seq<Name>, accepts: Name -> bool): (n: nat)
    ensures n <= |names| && (forall i | 0 <= i < n :: accepts(names[i])) && (n < |names| ==> !accepts(names[n]))
  {
    if names == [] || !accepts(names[0]) then 0 else 1 + FirstRefused(names[1..], accepts)
  }

  function RefusedOf(names: seq<Name>, accepts: Name -> bool): Option<Name> {
    var n := FirstRefused(names, accepts);
    if n < |names| then Some(names[n]) else None
  }

  /** What the registration phase refuses first: a schema, or else a view. */
  function Refusal(res: LoadResult, acceptsSchema: Name -> bool, acceptsView: Name -> bool): Option<Name> {
    var schema := RefusedOf(res.loadedSchemas, acceptsSchema);
    if schema.Some? then schema else RefusedOf(res.loadedViews, acceptsView)
  }

  /** What is local after the registration phase: what was queued before the refusal, if any. */
  ghost function Registered(before: Local, res: LoadResult, acceptsSchema: Name -> bool, acceptsView: Name -> bool)
    : Local
  {
    var i := FirstRefused(res.loadedSchemas, acceptsSchema);
    var j := if i < |res.loadedSchemas| then 0 else FirstRefused(res.loadedViews, acceptsView);
    Local(before.views + Members(res.loadedViews[..j]), before.schemas + Members(res.loadedSchemas[..i]))
  }

  /** The first refused schema is the refusal, and a view only when every schema is accepted. */
  lemma RefusalMeans(res: LoadResult, acceptsSchema: Name -> bool, acceptsView: Name -> bool, i: nat)
    ensures i < |res.loadedSchemas| && !acceptsSchema(res.loadedSchemas[i])
            && (forall j | 0 <= j < i :: acceptsSchema(res.loadedSchemas[j])) ==>
              Refusal(res, acceptsSchema, acceptsView) == Some(res.loadedSchemas[i])
    ensures (forall s | s in res.loadedSchemas :: acceptsSchema(s))
            && i < |res.loadedViews| && !acceptsView(res.loadedViews[i])
            && (forall j | 0 <= j < i :: acceptsView(res.loadedViews[j])) ==>
              Refusal(res, acceptsSchema, acceptsView) == Some(res.loadedViews[i])
  {
    if forall s | s in res.loadedSchemas :: acceptsSchema(s) {
      assert forall j | 0 <= j < |res.loadedSchemas| :: acceptsSchema(res.loadedSchemas[j]);
    }
  }

  /** When everything queued is accepted nothing is refused, and exactly what was queued is added. */
  lemma AllAcceptedRegisters(before: Local, res: LoadResult, acceptsSchema: Name -> bool, acceptsView: Name -> bool)
    requires forall s | s in res.loadedSchemas :: acceptsSchema(s)
    requires forall v | v in res.loadedViews :: acceptsView(v)
    ensures Refusal(res, acceptsSchema, acceptsView).None?
    ensures Registered(before, res, acceptsSchema, acceptsView) ==
            Local(before.views + Members(res.loadedViews), before.schemas + Members(res.loadedSchemas))
  {
    assert res.loadedViews[..|res.loadedViews|] == res.loadedViews;
    assert res.loadedSchemas[..|res.loadedSchemas|] == res.loadedSchemas;
  }

  /** The view's output schema is local, and so is every source. */
  ghost predicate Supported(svc: Service, now: Local, n: Name) {
    && n in svc.views && svc.views[n].outputSchema in now.schemas
    && forall s | s in svc.views[n].sources :: now.Has(s)
  }

  /** Registering the next view leaves the earlier ones supported and supports the new one. */
  lemma SupportsNext(svc: Service, local: Local, res: LoadResult, now: Local, added: set<Name>, i: nat)
    requires Collected(svc, local, res) && i < |res.loadedViews| && (forall n | n in added :: Supported(svc, now, n))
    requires now == Local(local.views + Members(res.loadedViews[..i]), local.schemas + Members(res.loadedSchemas))
    ensures forall n | n in added + {res.loadedViews[i]} ::
              Supported(svc, now.(views := now.views + {res.loadedViews[i]}), n)
  {
    NextViewIsSupported(svc, local, res, i);
  }

  /** The local schema manager. */
  class SchemaManager {
    var views: set<Name>
    var schemas: set<Name>

    ghost function State(): Local
      reads this
    {
      Local(views, schemas)
    }

    /** Every view in `added` finds its output schema and all its sources here. */
    ghost predicate Supports(svc: Service, added: set<Name>)
      reads this
    {
      forall n | n in added :: Supported(svc, State(), n)
    }

    /** Loads the queued schemas in order; stops at the first one that is refused. */
    method LoadSchemas(names: seq<Name>, accepts: Name -> bool) returns (refused: Option<Name>)
      modifies this`schemas
      ensures refused == RefusedOf(names, accepts)
      ensures schemas == old(schemas) + Members(names[..FirstRefused(names, accepts)])
    {
      for i := 0 to |names|
        invariant schemas == old(schemas) + Members(names[..i])
        invariant forall j | 0 <= j < i :: accepts(names[j])
      {
        if !accepts(names[i]) {
          return Some(names[i]);
        }
        assert names[..i + 1] == names[..i] + [names[i]];
        schemas := schemas + {names[i]};
      }
      return None;
    }

    /** Registers the queued views leaf-first, up to the first refused one; no registered view lacks a source. */
    method RegisterViews(svc: Service, ghost local: Local, res: LoadResult, accepts: Name -> bool)
      returns (refused: Option<Name>)
      requires Collected(svc, local, res) && views == local.views
      requires schemas == local.schemas + Members(res.loadedSchemas)
      modifies this`views
      ensures refused == RefusedOf(res.loadedViews, accepts)
      ensures views == old(views) + Members(res.loadedViews[..FirstRefused(res.loadedViews, accepts)])
      ensures Supports(svc, views - old(views))
    {
      var vs := res.viewsToRegister;
      ghost var names := res.loadedViews;
      for i := 0 to |vs|
        invariant views == local.views + Members(names[..i])
        invariant forall j | 0 <= j < i :: accepts(names[j])
        invariant Supports(svc, views - local.views)
      {
        assert names[i] == vs[i].name;
        if !accepts(vs[i].name) {
          return Some(vs[i].name);
        }
        SupportsNext(svc, local, res, Local(views, schemas), views - local.views, i);
        assert names[..i + 1] == names[..i] + [names[i]];
        views := views + {vs[i].name};
      }
      return None;
    }

    /**
     Fetches, then registers schemas and views in order up to the first refusal. A failed fetch changes nothing; in
     every case the newly registered views find their sources and output schema.
     */
    method LoadViewFromService(svc: Service, root: Name, acceptsSchema: Name -> bool, acceptsView: Name -> bool)
      returns (r: Result<LoadResult, LoadError>, ghost f: Result<LoadResult, LoadError>)
      requires Honest(svc)
      modifies this
      ensures Fetched(svc, old(State()), root, f)
      ensures f.Err? ==> r == f && State() == old(State())
      ensures f.Ok? ==>
                && State() == Registered(old(State()), f.value, acceptsSchema, acceptsView)
                && match Refusal(f.value, acceptsSchema, acceptsView)
                   case None => r == f
                   case Some(n) => r == Err(RegistrationFailed(n))
      ensures Supports(svc, views - old(views))
    {
      ghost var local := State();
      var fetched := Fetch(svc, Local(views, schemas), root);
      f := fetched;
      if fetched.Err? {
        return fetched, f;
      }
      var refusedSchema := LoadSchemas(fetched.value.loadedSchemas, acceptsSchema);
      assert fetched.value.loadedViews[..0] == [];
      if refusedSchema.Some? {
        return Err(RegistrationFailed(refusedSchema.value)), f;
      }
      assert fetched.value.loadedSchemas[..|fetched.value.loadedSchemas|] == fetched.value.loadedSchemas;
      var refusedView := RegisterViews(svc, local, fetched.value, acceptsView);
      if refusedView.Some? {
        return Err(RegistrationFailed(refusedView.value)), f;
      }
      return fetched, f;
    }
  }
}
