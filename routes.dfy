/**
 * The route table of the gateway (plugins/elasticsearch/routes.go,
 * preprocess): every decoded `api` is expanded into routes, one per entry of
 * its `url.paths` other than "" and "/"; the `"METHOD:path"` index and the category-to-ACL index
 * are filled in; the routes are sorted by specificity; and the catch-all
 * `GET /` route is appended last.
 *
 * `util.CountComponents` is outside this model: it is the parameter `count`,
 * giving the (fixed segments, parameter segments) of a path.
 */
module Routes {
  import opened GoStrings
  import opened Classify

  /** route.Route without its handler. */
  datatype Route = Route(name: string, methods: seq<string>, path: string, description: string)

  /** The catch-all route appended after sorting. */
  const Ping: Route := Route("ping", ["GET"], "/", "You know, for search")

  /** A path of the spec with the leading `/` added when it is missing. */
  function Normalize(p: string): string {
    if HasPrefix(p, "/") then p else "/" + p
  }

  /**
   * The normalized path starts with `/` and ends with the original path,
   * which keeps its length exactly when it already starts with `/`;
   * normalizing twice changes nothing more; and only "" and "/" become the
   * root "/".
   */
  lemma NormalizeSpec(p: string)
    ensures HasPrefix(Normalize(p), "/") && HasSuffix(Normalize(p), p)
    ensures |Normalize(p)| == |p| <==> HasPrefix(p, "/")
    ensures |Normalize(p)| <= |p| + 1
    ensures Normalize(Normalize(p)) == Normalize(p)
    ensures Normalize(p) == "/" <==> p == "" || p == "/"
  {
    if Normalize(p) == "/" && p != "" {
      assert |p| == 1 && p[0] == '/';
    }
  }

  /** The route one path of an api becomes. */
  function RouteOf<C, A>(api: Api<C, A>, path: string): Route {
    Route(api.name, api.spec.methods, path, api.spec.documentation)
  }

  /** The routes the paths `paths` of `api` add, in order. */
  function RoutesOfPaths<C, A>(api: Api<C, A>, paths: seq<string>): seq<Route> {
    if paths == [] then []
    else
      var before := RoutesOfPaths(api, paths[..|paths| - 1]);
      var path := Normalize(paths[|paths| - 1]);
      if path == "/" then before else before + [RouteOf(api, path)]
  }

  lemma RoutesOfPathsStep<C, A>(api: Api<C, A>, paths: seq<string>, j: nat)
    requires j < |paths|
    ensures var path := Normalize(paths[j]);
      RoutesOfPaths(api, paths[..j + 1])
        == RoutesOfPaths(api, paths[..j]) + if path == "/" then [] else [RouteOf(api, path)]
  {
    assert paths[..j + 1][..j] == paths[..j];
  }

  /** The routes one api adds. */
  function RoutesOf<C, A>(api: Api<C, A>): seq<Route> {
    RoutesOfPaths(api, api.spec.paths)
  }

  /** The routes a sequence of apis adds, before sorting. */
  function RoutesOfAll<C, A>(apis: seq<Api<C, A>>): seq<Route> {
    if apis == [] then [] else RoutesOfAll(apis[..|apis| - 1]) + RoutesOf(apis[|apis| - 1])
  }

  /**
   * Each route of an api carries the api's name, all its methods and its
   * documentation, and a path that is one of its paths with a leading `/`,
   * never `/` itself; there are at most as many routes as paths.
   */
  lemma {:induction false} RoutesOfPathsFields<C, A>(api: Api<C, A>, paths: seq<string>)
    ensures |RoutesOfPaths(api, paths)| <= |paths|
    ensures forall r :: r in RoutesOfPaths(api, paths) ==>
      && r.name == api.name && r.methods == api.spec.methods && r.description == api.spec.documentation
      && HasPrefix(r.path, "/") && r.path != "/"
      && exists j :: 0 <= j < |paths| && r.path == Normalize(paths[j])
  {
    if paths != [] {
      var init := paths[..|paths| - 1];
      RoutesOfPathsFields(api, init);
      forall r | r in RoutesOfPaths(api, paths)
        ensures exists j :: 0 <= j < |paths| && r.path == Normalize(paths[j])
      {
        if r in RoutesOfPaths(api, init) {
          var j :| 0 <= j < |init| && r.path == Normalize(init[j]);
          assert init[j] == paths[j];
        } else {
          assert r.path == Normalize(paths[|paths| - 1]);
        }
      }
    }
  }

  /** Every path of an api other than "" and "/" gives a route. */
  lemma {:induction false} RoutesOfPathsCover<C, A>(api: Api<C, A>, paths: seq<string>)
    ensures forall j :: 0 <= j < |paths| && Normalize(paths[j]) != "/" ==>
      RouteOf(api, Normalize(paths[j])) in RoutesOfPaths(api, paths)
  {
    if paths != [] {
      var init := paths[..|paths| - 1];
      RoutesOfPathsCover(api, init);
      forall j | 0 <= j < |paths| && Normalize(paths[j]) != "/"
        ensures RouteOf(api, Normalize(paths[j])) in RoutesOfPaths(api, paths)
      {
        if j < |init| {
          assert init[j] == paths[j];
        }
      }
    }
  }

  /**
   * When none of the paths is "" or "/", exactly one route is added per
   * path, in the order of the paths, and duplicates are kept.
   */
  lemma {:induction false} RoutesOfPathsExact<C, A>(api: Api<C, A>, paths: seq<string>)
    requires forall j :: 0 <= j < |paths| ==> Normalize(paths[j]) != "/"
    ensures |RoutesOfPaths(api, paths)| == |paths|
    ensures forall k :: 0 <= k < |paths| ==> RoutesOfPaths(api, paths)[k] == RouteOf(api, Normalize(paths[k]))
  {
    if paths != [] {
      var init := paths[..|paths| - 1];
      assert forall j :: 0 <= j < |init| ==> init[j] == paths[j];
      RoutesOfPathsExact(api, init);
    }
  }

  /** The entries of `paths`, normalized, without those that become "/", in order. */
  function NonRootPaths(paths: seq<string>): (q: seq<string>)
    ensures |q| <= |paths|
    ensures forall s :: s in q ==> HasPrefix(s, "/") && s != "/"
    ensures forall j :: 0 <= j < |paths| && Normalize(paths[j]) != "/" ==> Normalize(paths[j]) in q
    ensures forall s :: s in q ==> exists j :: 0 <= j < |paths| && s == Normalize(paths[j])
  {
    if paths == [] then []
    else
      var init := paths[..|paths| - 1];
      var path := Normalize(paths[|paths| - 1]);
      var kept := NonRootPaths(init);
      assert forall j :: 0 <= j < |init| ==> init[j] == paths[j];
      assert forall s :: s in kept ==> exists j :: 0 <= j < |paths| && s == Normalize(paths[j]) by {
        forall s | s in kept
          ensures exists j :: 0 <= j < |paths| && s == Normalize(paths[j])
        {
          var j :| 0 <= j < |init| && s == Normalize(init[j]);
          assert s == Normalize(paths[j]);
        }
      }
      kept + if path == "/" then [] else [path]
  }

  /**
   * For any list of paths, the routes of an api are those of its non-root
   * normalized paths, one each and in the same order.
   */
  lemma {:induction false} RoutesOfPathsInOrder<C, A>(api: Api<C, A>, paths: seq<string>)
    ensures |RoutesOfPaths(api, paths)| == |NonRootPaths(paths)|
    ensures forall k :: 0 <= k < |NonRootPaths(paths)| ==>
      RoutesOfPaths(api, paths)[k] == RouteOf(api, NonRootPaths(paths)[k])
  {
    if paths != [] {
      RoutesOfPathsInOrder(api, paths[..|paths| - 1]);
    }
  }

  /** Every route built from the specs has a path that starts with `/` and is not `/`. */
  lemma {:induction false} RoutesOfAllPaths<C, A>(apis: seq<Api<C, A>>)
    ensures forall r :: r in RoutesOfAll(apis) ==> HasPrefix(r.path, "/") && r.path != "/"
  {
    if apis != [] {
      RoutesOfAllPaths(apis[..|apis| - 1]);
      RoutesOfPathsFields(apis[|apis| - 1], apis[|apis| - 1].spec.paths);
    }
  }

  // ------------------------------------------------------------ route index

  /** The key of the route index: the method and the path joined by a colon. */
  function Key(verb: string, path: string): string {
    verb + ":" + path
  }

  /** The index after `api` is registered under each of `methods` on `path`. */
  function RegisterMethods<C, A>(m: map<string, Api<C, A>>, api: Api<C, A>, methods: seq<string>, path: string): map<string, Api<C, A>> {
    if methods == [] then m
    else RegisterMethods(m, api, methods[..|methods| - 1], path)[Key(methods[|methods| - 1], path) := api]
  }

  /** The index after `api` is registered on each of `paths`. */
  function RegisterPaths<C, A>(m: map<string, Api<C, A>>, api: Api<C, A>, paths: seq<string>): map<string, Api<C, A>> {
    if paths == [] then m
    else
      var before := RegisterPaths(m, api, paths[..|paths| - 1]);
      var path := Normalize(paths[|paths| - 1]);
      if path == "/" then before else RegisterMethods(before, api, api.spec.methods, path)
  }

  lemma RegisterPathsStep<C, A>(m: map<string, Api<C, A>>, api: Api<C, A>, paths: seq<string>, j: nat)
    requires j < |paths|
    ensures var path := Normalize(paths[j]);
      RegisterPaths(m, api, paths[..j + 1])
        == if path == "/" then RegisterPaths(m, api, paths[..j])
           else RegisterMethods(RegisterPaths(m, api, paths[..j]), api, api.spec.methods, path)
  {
    assert paths[..j + 1][..j] == paths[..j];
    assert paths[..j + 1][j] == paths[j];
  }

  /** The index after one api is registered. */
  function RegisterApi<C, A>(m: map<string, Api<C, A>>, api: Api<C, A>): map<string, Api<C, A>> {
    RegisterPaths(m, api, api.spec.paths)
  }

  /** The index after a sequence of apis is registered, in order. */
  function RegisterAll<C, A>(m: map<string, Api<C, A>>, apis: seq<Api<C, A>>): map<string, Api<C, A>> {
    if apis == [] then m else RegisterApi(RegisterAll(m, apis[..|apis| - 1]), apis[|apis| - 1])
  }

  /** `k` is "m:p" for a method m of `api` and the `/`-prefixed form p of one of `paths`. */
  ghost predicate IsKeyOn<C, A>(api: Api<C, A>, paths: seq<string>, k: string) {
    exists i, j :: 0 <= i < |api.spec.methods| && 0 <= j < |paths|
      && Normalize(paths[j]) != "/" && k == Key(api.spec.methods[i], Normalize(paths[j]))
  }

  /** `k` is one of the keys that `api` is registered under. */
  ghost predicate IsKeyOf<C, A>(api: Api<C, A>, k: string) {
    IsKeyOn(api, api.spec.paths, k)
  }

  lemma {:induction false} RegisterMethodsSpec<C, A>(m: map<string, Api<C, A>>, api: Api<C, A>, methods: seq<string>, path: string)
    ensures var r := RegisterMethods(m, api, methods, path);
      forall k :: (k in r <==> k in m || exists i :: 0 <= i < |methods| && k == Key(methods[i], path))
        && (k in r ==> r[k] == if (exists i :: 0 <= i < |methods| && k == Key(methods[i], path)) then api else m[k])
  {
    if methods != [] {
      var init := methods[..|methods| - 1];
      RegisterMethodsSpec(m, api, init, path);
      assert forall i :: 0 <= i < |init| ==> init[i] == methods[i];
    }
  }

  lemma IsKeyOnInit<C, A>(api: Api<C, A>, paths: seq<string>, k: string)
    requires paths != [] && IsKeyOn(api, paths[..|paths| - 1], k)
    ensures IsKeyOn(api, paths, k)
  {
    var init := paths[..|paths| - 1];
    var i, j :| 0 <= i < |api.spec.methods| && 0 <= j < |init|
      && Normalize(init[j]) != "/" && k == Key(api.spec.methods[i], Normalize(init[j]));
    assert paths[j] == init[j];
  }

  lemma IsKeyOnLast<C, A>(api: Api<C, A>, paths: seq<string>, k: string, i: nat)
    requires paths != [] && Normalize(paths[|paths| - 1]) != "/"
    requires i < |api.spec.methods| && k == Key(api.spec.methods[i], Normalize(paths[|paths| - 1]))
    ensures IsKeyOn(api, paths, k)
  {
  }

  lemma IsKeyOnWitness<C, A>(api: Api<C, A>, paths: seq<string>, k: string, i: nat, j: nat)
    requires i < |api.spec.methods| && j < |paths|
    requires Normalize(paths[j]) != "/" && k == Key(api.spec.methods[i], Normalize(paths[j]))
    ensures IsKeyOn(api, paths, k)
  {
  }

  lemma IsKeyOnSplit<C, A>(api: Api<C, A>, paths: seq<string>, k: string)
    requires paths != [] && IsKeyOn(api, paths, k)
    ensures var last := Normalize(paths[|paths| - 1]);
      || IsKeyOn(api, paths[..|paths| - 1], k)
      || (last != "/" && exists i :: 0 <= i < |api.spec.methods| && k == Key(api.spec.methods[i], last))
  {
    var init := paths[..|paths| - 1];
    var i, j :| 0 <= i < |api.spec.methods| && 0 <= j < |paths|
      && Normalize(paths[j]) != "/" && k == Key(api.spec.methods[i], Normalize(paths[j]));
    if j < |init| {
      assert init[j] == paths[j];
      IsKeyOnWitness(api, init, k, i, j);
    } else {
      IsKeyOnLastWitness(api, paths, k, i, j);
    }
  }

  lemma IsKeyOnLastWitness<C, A>(api: Api<C, A>, paths: seq<string>, k: string, i: nat, j: nat)
    requires i < |api.spec.methods| && j == |paths| - 1
    requires Normalize(paths[j]) != "/" && k == Key(api.spec.methods[i], Normalize(paths[j]))
    ensures var last := Normalize(paths[|paths| - 1]);
      last != "/" && exists i :: 0 <= i < |api.spec.methods| && k == Key(api.spec.methods[i], last)
  {
  }

  lemma IsKeyOnSnoc<C, A>(api: Api<C, A>, paths: seq<string>, k: string)
    requires paths != []
    ensures var last := Normalize(paths[|paths| - 1]);
      IsKeyOn(api, paths, k) <==>
        || IsKeyOn(api, paths[..|paths| - 1], k)
        || (last != "/" && exists i :: 0 <= i < |api.spec.methods| && k == Key(api.spec.methods[i], last))
  {
    if IsKeyOn(api, paths, k) {
      IsKeyOnSplit(api, paths, k);
    }
    if IsKeyOn(api, paths[..|paths| - 1], k) {
      IsKeyOnInit(api, paths, k);
    }
    var last := Normalize(paths[|paths| - 1]);
    if last != "/" && exists i :: 0 <= i < |api.spec.methods| && k == Key(api.spec.methods[i], last) {
      var i :| 0 <= i < |api.spec.methods| && k == Key(api.spec.methods[i], last);
      IsKeyOnLast(api, paths, k, i);
    }
  }

  lemma {:induction false} RegisterPathsSpec<C, A>(m: map<string, Api<C, A>>, api: Api<C, A>, paths: seq<string>)
    ensures var r := RegisterPaths(m, api, paths);
      forall k :: (k in r <==> k in m || IsKeyOn(api, paths, k))
        && (k in r ==> r[k] == if IsKeyOn(api, paths, k) then api else m[k])
  {
    if paths != [] {
      var init := paths[..|paths| - 1];
      var last := Normalize(paths[|paths| - 1]);
      RegisterPathsSpec(m, api, init);
      var before := RegisterPaths(m, api, init);
      if last != "/" {
        RegisterMethodsSpec(before, api, api.spec.methods, last);
      }
      forall k {
        IsKeyOnSnoc(api, paths, k);
      }
    }
  }

  /**
   * After an api is registered, each of its keys "method:path" maps to it,
   * whatever was there before (last writer wins), and every other key is as
   * it was.
   */
  lemma RegisterApiSpec<C, A>(m: map<string, Api<C, A>>, api: Api<C, A>)
    ensures var r := RegisterApi(m, api);
      && (forall k :: IsKeyOf(api, k) ==> k in r && r[k] == api)
      && (forall k :: !IsKeyOf(api, k) ==> (k in r <==> k in m) && (k in m ==> r[k] == m[k]))
  {
    RegisterPathsSpec(m, api, api.spec.paths);
  }

  // -------------------------------------------------------------- ACL index

  /** The category-to-ACL index after one (category, acl) pair is recorded. */
  function AddAcl<C, A>(acls: map<C, set<A>>, c: C, a: A): map<C, set<A>> {
    acls[c := (if c in acls then acls[c] else {}) + {a}]
  }

  /** The index after the pairs of a sequence of apis are recorded. */
  function AclsAll<C, A>(acls: map<C, set<A>>, apis: seq<Api<C, A>>): map<C, set<A>> {
    if apis == [] then acls
    else
      var last := apis[|apis| - 1];
      AddAcl(AclsAll(acls, apis[..|apis| - 1]), last.category, last.acl)
  }

  /**
   * The category index holds exactly the categories and (category, ACL)
   * pairs it held before and those of the apis.
   */
  lemma {:induction false} AclsAllSpec<C, A>(acls: map<C, set<A>>, apis: seq<Api<C, A>>)
    ensures var r := AclsAll(acls, apis);
      && (forall c :: c in r <==> c in acls || exists i :: 0 <= i < |apis| && apis[i].category == c)
      && (forall c, a :: c in r && a in r[c] <==>
            (c in acls && a in acls[c]) || exists i :: 0 <= i < |apis| && apis[i].category == c && apis[i].acl == a)
  {
    if apis != [] {
      var init := apis[..|apis| - 1];
      AclsAllSpec(acls, init);
      assert forall i :: 0 <= i < |init| ==> init[i] == apis[i];
      var prev := AclsAll(acls, init);
      var last := apis[|apis| - 1];
      var r := AclsAll(acls, apis);
      assert r == AddAcl(prev, last.category, last.acl);
      forall c, a | (exists i :: 0 <= i < |apis| && apis[i].category == c && apis[i].acl == a)
        ensures c in r && a in r[c]
      {
        var i :| 0 <= i < |apis| && apis[i].category == c && apis[i].acl == a;
        if i < |init| {
          assert init[i] == apis[i];
          assert c in prev && a in prev[c];
          if c == last.category {
            assert r[c] == prev[c] + {last.acl};
          } else {
            assert r[c] == prev[c];
          }
        }
      }
      forall c | (exists i :: 0 <= i < |apis| && apis[i].category == c)
        ensures c in r
      {
        var i :| 0 <= i < |apis| && apis[i].category == c;
        if i < |init| {
          assert init[i] == apis[i];
        }
      }
    }
  }

  // ------------------------------------------------------------------ order

  /** The sort criterion: more fixed segments first, then fewer parameters. */
  predicate Less(count: string -> (nat, nat), r1: Route, r2: Route) {
    var (f1, c1) := count(r1.path);
    var (f2, c2) := count(r2.path);
    if f1 == f2 then c1 < c2 else f1 > f2
  }

  /** `r1` may stand before `r2` in a sorted table. */
  predicate Precedes(count: string -> (nat, nat), r1: Route, r2: Route) {
    var (f1, c1) := count(r1.path);
    var (f2, c2) := count(r2.path);
    f1 > f2 || (f1 == f2 && c1 <= c2)
  }

  /** For any i < j: fixed(i) > fixed(j), or fixed(i) = fixed(j) and params(i) <= params(j). */
  ghost predicate Sorted(count: string -> (nat, nat), rs: seq<Route>) {
    forall i, j :: 0 <= i < j < |rs| ==> Precedes(count, rs[i], rs[j])
  }

  /** A route that may precede every route of a sorted sequence can be put in front of it. */
  lemma PrependSorted(count: string -> (nat, nat), x: Route, s: seq<Route>)
    requires Sorted(count, s)
    requires forall k :: 0 <= k < |s| ==> Precedes(count, x, s[k])
    ensures Sorted(count, [x] + s)
  {
    var t := [x] + s;
    forall i, j | 0 <= i < j < |t|
      ensures Precedes(count, t[i], t[j])
    {
      if i == 0 {
        assert t[j] == s[j - 1];
      } else {
        assert t[i] == s[i - 1] && t[j] == s[j - 1];
      }
    }
  }

  /** `r` inserted into the sorted `s` before the first route it is less than. */
  function Insert(count: string -> (nat, nat), s: seq<Route>, r: Route): (t: seq<Route>)
    requires Sorted(count, s)
    ensures Sorted(count, t)
    ensures multiset(t) == multiset(s) + multiset{r}
  {
    if s == [] then [r]
    else if Less(count, r, s[0]) then
      assert forall k :: 0 <= k < |s| ==> Precedes(count, r, s[k]) by {
        forall k | 0 <= k < |s|
          ensures Precedes(count, r, s[k])
        {
          if k > 0 {
            assert Precedes(count, s[0], s[k]);
          }
        }
      }
      PrependSorted(count, r, s);
      [r] + s
    else
      var rest := Insert(count, s[1..], r);
      assert forall k :: 0 <= k < |rest| ==> Precedes(count, s[0], rest[k]) by {
        forall k | 0 <= k < |rest|
          ensures Precedes(count, s[0], rest[k])
        {
          assert rest[k] in multiset(rest);
          if rest[k] != r {
            assert rest[k] in multiset(s[1..]);
            var m :| 0 <= m < |s[1..]| && s[1..][m] == rest[k];
            assert s[m + 1] == rest[k];
          }
        }
      }
      PrependSorted(count, s[0], rest);
      assert s == [s[0]] + s[1..];
      [s[0]] + rest
  }

  /**
   * A finished table built from the assembled routes: the sorted routes,
   * a permutation of the assembled ones, followed by the catch-all.
   */
  ghost predicate IsRouteTable(count: string -> (nat, nat), table: seq<Route>, assembled: seq<Route>) {
    && |table| == |assembled| + 1
    && table[|assembled|] == Ping
    && Sorted(count, table[..|assembled|])
    && multiset(table[..|assembled|]) == multiset(assembled)
  }

  /**
   * In a finished table built from specs, every path starts with `/`, the
   * catch-all is the last route and the only one whose path is `/`, and the
   * specific routes are in specificity order.
   */
  lemma RouteTableShape<C, A>(count: string -> (nat, nat), table: seq<Route>, apis: seq<Api<C, A>>)
    requires IsRouteTable(count, table, RoutesOfAll(apis))
    ensures table[|table| - 1] == Ping
    ensures forall k :: 0 <= k < |table| ==> HasPrefix(table[k].path, "/")
    ensures forall k :: 0 <= k < |table| ==> (table[k].path == "/" <==> k == |table| - 1)
    ensures forall i, j :: 0 <= i < j < |table| - 1 ==> Precedes(count, table[i], table[j])
  {
    var n := |RoutesOfAll(apis)|;
    RoutesOfAllPaths(apis);
    forall k | 0 <= k < n
      ensures HasPrefix(table[k].path, "/") && table[k].path != "/"
    {
      assert table[..n][k] == table[k];
      assert table[k] in multiset(RoutesOfAll(apis));
    }
    assert forall i, j :: 0 <= i < j < n ==> table[..n][i] == table[i] && table[..n][j] == table[j];
  }

  // ------------------------------------------------------------------ table

  /** One more api, as the loop over the decoded apis takes it. */
  lemma ApisStep<C, A>(m: map<string, Api<C, A>>, acls: map<C, set<A>>, apis: seq<Api<C, A>>, n: nat)
    requires n < |apis|
    ensures RoutesOfAll(apis[..n + 1]) == RoutesOfAll(apis[..n]) + RoutesOf(apis[n])
    ensures RegisterAll(m, apis[..n + 1]) == RegisterApi(RegisterAll(m, apis[..n]), apis[n])
    ensures AclsAll(acls, apis[..n + 1]) == AddAcl(AclsAll(acls, apis[..n]), apis[n].category, apis[n].acl)
  {
    assert apis[..n + 1][..n] == apis[..n];
  }

  lemma RoutesOfAllAfter<C, A>(routes0: seq<Route>, apis: seq<Api<C, A>>, n: nat)
    requires n < |apis|
    ensures routes0 + RoutesOfAll(apis[..n + 1]) == routes0 + RoutesOfAll(apis[..n]) + RoutesOf(apis[n])
  {
    assert apis[..n + 1][..n] == apis[..n];
  }

  /** The package-level `routes`, `routeSpecs` and `acls` of the gateway. */
  class RouteTable<C(==), A(==)> {
    var routes: seq<Route>
    var routeSpecs: map<string, Api<C, A>>
    var acls: map<C, set<A>>

    constructor ()
      ensures routes == [] && routeSpecs == map[] && acls == map[]
    {
      routes := [];
      routeSpecs := map[];
      acls := map[];
    }

    /**
     * The body of the loop over `url.paths`: the path gets its leading `/`;
     * unless it is then `/`, a route is added and the api is registered under
     * "method:path" for each of its methods.
     */
    method AddPath(api: Api<C, A>, raw: string)
      modifies this
      ensures Normalize(raw) == "/" ==> routes == old(routes) && routeSpecs == old(routeSpecs)
      ensures Normalize(raw) != "/" ==> routes == old(routes) + [RouteOf(api, Normalize(raw))]
      ensures Normalize(raw) != "/" ==>
        routeSpecs == RegisterMethods(old(routeSpecs), api, api.spec.methods, Normalize(raw))
      ensures acls == old(acls)
    {
      var path := raw;
      if !HasPrefix(path, "/") {
        path := "/" + path;
      }
      if path == "/" {
        return;
      }
      routes := routes + [Route(api.name, api.spec.methods, path, api.spec.documentation)];
      var methods := api.spec.methods;
      var i := 0;
      while i < |methods|
        invariant 0 <= i <= |methods|
        invariant routeSpecs == RegisterMethods(old(routeSpecs), api, methods[..i], path)
        invariant routes == old(routes) + [RouteOf(api, path)] && acls == old(acls)
      {
        assert methods[..i + 1][..i] == methods[..i];
        routeSpecs := routeSpecs[methods[i] + ":" + path := api];
        i := i + 1;
      }
      assert methods[..i] == methods;
    }

    /** The body of the loop over the decoded apis: one api is added. */
    method Add(api: Api<C, A>)
      modifies this
      ensures routes == old(routes) + RoutesOf(api)
      ensures routeSpecs == RegisterApi(old(routeSpecs), api)
      ensures acls == AddAcl(old(acls), api.category, api.acl)
    {
      var paths := api.spec.paths;
      var j := 0;
      while j < |paths|
        invariant 0 <= j <= |paths|
        invariant routes == old(routes) + RoutesOfPaths(api, paths[..j])
        invariant routeSpecs == RegisterPaths(old(routeSpecs), api, paths[..j])
        invariant acls == old(acls)
      {
        RoutesOfPathsStep(api, paths, j);
        RegisterPathsStep(old(routeSpecs), api, paths, j);
        AddPath(api, paths[j]);
        j := j + 1;
      }
      assert paths[..j] == paths;
      RecordAcl(api.category, api.acl);
    }

    /** Records that ACL `a` occurs in category `c`, creating the category's set if needed. */
    method RecordAcl(c: C, a: A)
      modifies this
      ensures acls == AddAcl(old(acls), c, a)
      ensures routes == old(routes) && routeSpecs == old(routeSpecs)
    {
      if c !in acls {
        acls := acls[c := {}];
      }
      if a !in acls[c] {
        acls := acls[c := acls[c] + {a}];
      } else {
        assert acls[c] + {a} == acls[c];
      }
    }

    /** route.By(criteria).Sort(routes): sorts the routes, promising no stability. */
    method SortRoutes(count: string -> (nat, nat))
      modifies this
      ensures Sorted(count, routes)
      ensures multiset(routes) == multiset(old(routes))
      ensures routeSpecs == old(routeSpecs) && acls == old(acls)
    {
      var sorted := [];
      var i := 0;
      while i < |routes|
        invariant 0 <= i <= |routes|
        invariant Sorted(count, sorted)
        invariant multiset(sorted) == multiset(routes[..i])
      {
        assert routes[..i + 1] == routes[..i] + [routes[i]];
        sorted := Insert(count, sorted, routes[i]);
        i := i + 1;
      }
      assert routes[..i] == routes;
      routes := sorted;
    }

    /**
     * The tail of preprocess: the decoded apis are added in arrival order,
     * the routes are sorted, and the catch-all is appended.
     */
    method Preprocess(apis: seq<Api<C, A>>, count: string -> (nat, nat))
      modifies this
      ensures IsRouteTable(count, routes, old(routes) + RoutesOfAll(apis))
      ensures routeSpecs == RegisterAll(old(routeSpecs), apis)
      ensures acls == AclsAll(old(acls), apis)
    {
      var n := 0;
      while n < |apis|
        invariant 0 <= n <= |apis|
        invariant routes == old(routes) + RoutesOfAll(apis[..n])
        invariant routeSpecs == RegisterAll(old(routeSpecs), apis[..n])
        invariant acls == AclsAll(old(acls), apis[..n])
      {
        ApisStep(old(routeSpecs), old(acls), apis, n);
        RoutesOfAllAfter(old(routes), apis, n);
        Add(apis[n]);
        n := n + 1;
      }
      assert apis[..n] == apis;
      Finish(count);
    }

    /** After the loop: the routes are sorted and the catch-all is appended last. */
    method Finish(count: string -> (nat, nat))
      modifies this
      ensures IsRouteTable(count, routes, old(routes))
      ensures routeSpecs == old(routeSpecs) && acls == old(acls)
    {
      SortRoutes(count);
      ghost var sorted := routes;
      assert |sorted| == |multiset(sorted)| == |multiset(old(routes))| == |old(routes)|;
      routes := routes + [Ping];
      assert routes[..|old(routes)|] == sorted;
    }
  }
}
