/**
 * The router's route table, as data, and its global `beforeEach` guard: a
 * navigation whose matched records include one marked `requiresAuth` is sent
 * to the `login` route when no token is stored; every other navigation
 * proceeds.
 */
module RouteGuard {
  import opened Wrappers

  /** A route record; a child without `meta` has `requiresAuth` false (undefined is falsy). */
  datatype RouteRecord = RouteRecord(
    path: string,
    name: Option<string>,
    requiresAuth: bool,
    children: seq<RouteRecord>)

  function Leaf(path: string, name: string): RouteRecord {
    RouteRecord(path, Some(name), false, [])
  }

  const LoginName := "login"

  /** The application's routes: a protected root layout and a public auth layout. */
  const Routes: seq<RouteRecord> := [
    RouteRecord("/", None, true, [
      Leaf("", "Dashboard"),
      Leaf("/admin", "admin"),
      Leaf("/items", "items"),
      Leaf("/settings/:tab?", "settings")]),
    RouteRecord("/", None, false, [
      Leaf("/login", LoginName),
      Leaf("/signup", "signup"),
      Leaf("/reset-password", "reset-password"),
      Leaf("/recover-password", "recover-password")])
  ]

  const ProtectedNames := {"Dashboard", "admin", "items", "settings"}
  const PublicNames := {LoginName, "signup", "reset-password", "recover-password"}

  /** Some record in the tree, at any depth, is called `name`. */
  predicate Declares(records: seq<RouteRecord>, name: string)
    decreases records
  {
    exists i :: 0 <= i < |records| && (records[i].name == Some(name) || Declares(records[i].children, name))
  }

  /**
   * `to.matched` for the route called `name`: a chain that starts at a
   * top-level record, descends from each record to one of its children and
   * ends at the record called `name`. There is none exactly when no record
   * has that name.
   */
  function Matched(records: seq<RouteRecord>, name: string): (r: Option<seq<RouteRecord>>)
    ensures r.Some? <==> Declares(records, name)
    ensures r.Some? ==> |r.value| > 0 && r.value[0] in records
    ensures r.Some? ==> forall k :: 0 <= k < |r.value| - 1 ==> r.value[k + 1] in r.value[k].children
    ensures r.Some? ==> r.value[|r.value| - 1].name == Some(name)
    decreases records
  {
    if records == [] then None
    else if records[0].name == Some(name) then Some([records[0]])
    else match Matched(records[0].children, name)
      case Some(chain) => Some([records[0]] + chain)
      case None =>
        var rest := Matched(records[1..], name);
        assert Declares(records, name) ==> Declares(records[1..], name) by {
          if Declares(records, name) {
            var i :| 0 <= i < |records| && (records[i].name == Some(name) || Declares(records[i].children, name));
            assert i > 0;
            assert records[1..][i - 1] == records[i];
          }
        }
        assert Declares(records[1..], name) ==> Declares(records, name) by {
          if Declares(records[1..], name) {
            var i :| 0 <= i < |records[1..]| && (records[1..][i].name == Some(name) || Declares(records[1..][i].children, name));
            assert records[i + 1] == records[1..][i];
          }
        }
        rest
  }

  /** `to.matched.some((record) => record.meta.requiresAuth)` */
  function AnyRequiresAuth(matched: seq<RouteRecord>): (b: bool)
    ensures b <==> exists i :: 0 <= i < |matched| && matched[i].requiresAuth
  {
    if matched == [] then false
    else matched[0].requiresAuth || AnyRequiresAuth(matched[1..])
  }

  /** The guard reads the token as a JavaScript truthy value: the empty string counts as no token. */
  predicate IsAuthenticated(token: Option<string>): (b: bool)
    ensures token == None ==> !b
    ensures token == Some("") ==> !b
    ensures token.Some? && token.value != "" ==> b
  {
    token.Some? && token.value != ""
  }

  /** The one call the guard makes: `next()` or `next({ name })`. */
  datatype Decision = Proceed | Redirect(routeName: string)

  /**
   * `router.beforeEach`, given the matched records and the stored token. It
   * redirects to `login` exactly when a matched record requires auth and the
   * token is missing or empty, and proceeds otherwise.
   */
  function BeforeEach(matched: seq<RouteRecord>, token: Option<string>): (d: Decision)
    ensures d == Proceed || d == Redirect(LoginName)
    ensures d.Redirect? <==>
      (exists i :: 0 <= i < |matched| && matched[i].requiresAuth) && !IsAuthenticated(token)
    ensures IsAuthenticated(token) ==> d == Proceed
  {
    if AnyRequiresAuth(matched) && !IsAuthenticated(token) then Redirect(LoginName) else Proceed
  }

  lemma {:induction false} MatchedAmongLeaves(leaves: seq<RouteRecord>, k: nat, name: string)
    requires forall j :: 0 <= j < |leaves| ==> leaves[j].children == []
    requires k < |leaves| && leaves[k].name == Some(name)
    requires forall j :: 0 <= j < k ==> leaves[j].name != Some(name)
    ensures Matched(leaves, name) == Some([leaves[k]])
  {
    if k > 0 {
      assert Matched(leaves[0].children, name) == None;
      MatchedAmongLeaves(leaves[1..], k - 1, name);
    }
  }

  lemma {:induction false} MatchedNoLeaf(leaves: seq<RouteRecord>, name: string)
    requires forall j :: 0 <= j < |leaves| ==> leaves[j].children == [] && leaves[j].name != Some(name)
    ensures Matched(leaves, name) == None
  {
    if leaves != [] {
      assert Matched(leaves[0].children, name) == None;
      MatchedNoLeaf(leaves[1..], name);
    }
  }

  /** Dashboard, admin, items and settings sit under the protected layout: without a token they go to `login`. */
  lemma ProtectedRoutes(name: string, token: Option<string>)
    requires name in ProtectedNames
    ensures Matched(Routes, name).Some?
    ensures Matched(Routes, name).value[0].requiresAuth
    ensures BeforeEach(Matched(Routes, name).value, token).Redirect? <==> !IsAuthenticated(token)
  {
    assert Matched(Routes, name) == Matched(Routes[0..1], name);
  }

  /** login, signup, reset-password and recover-password proceed whatever the token. */
  lemma PublicRoutes(name: string, token: Option<string>)
    requires name in PublicNames
    ensures Matched(Routes, name).Some?
    ensures forall r :: r in Matched(Routes, name).value ==> !r.requiresAuth
    ensures BeforeEach(Matched(Routes, name).value, token) == Proceed
  {
    var k := PublicChain(name);
    var chain := [Routes[1], Routes[1].children[k]];
    assert forall r :: r in chain ==> !r.requiresAuth;
  }

  /** A public name resolves to the auth layout followed by its own record. */
  lemma PublicChain(name: string) returns (k: nat)
    requires name in PublicNames
    ensures k < |Routes[1].children|
    ensures Matched(Routes, name) == Some([Routes[1], Routes[1].children[k]])
  {
    var leaves := Routes[1].children;
    NotUnderProtectedLayout(name);
    k := AmongPublicLeaves(name);
    var rest := Routes[1..];
    assert rest[0] == Routes[1] && |rest| == 1;
    MatchedStep(Routes, name);
    MatchedStep(rest, name);
    assert [Routes[1]] + [leaves[k]] == [Routes[1], leaves[k]];
  }

  lemma NotUnderProtectedLayout(name: string)
    requires name in PublicNames
    ensures Matched(Routes[0].children, name) == None
  {
    var ch := Routes[0].children;
    assert |name| == 5 ==> name[0] == 'l';
    assert |name| != 9 && |name| != 8;
    forall j | 0 <= j < |ch|
      ensures ch[j].children == [] && ch[j].name != Some(name)
    {
      assert |ch[j].name.value| != |name| || ch[j].name.value[0] != name[0];
    }
    MatchedNoLeaf(ch, name);
  }

  lemma AmongPublicLeaves(name: string) returns (k: nat)
    requires name in PublicNames
    ensures k < |Routes[1].children|
    ensures Matched(Routes[1].children, name) == Some([Routes[1].children[k]])
  {
    k := if name == LoginName then 0 else if name == "signup" then 1
         else if name == "reset-password" then 2 else 3;
    MatchedAmongLeaves(Routes[1].children, k, name);
  }

  /** One step of the lookup through a record that has no name of its own. */
  lemma MatchedStep(records: seq<RouteRecord>, name: string)
    requires records != [] && records[0].name == None
    ensures Matched(records[0].children, name).Some? ==>
      Matched(records, name) == Some([records[0]] + Matched(records[0].children, name).value)
    ensures Matched(records[0].children, name).None? ==>
      Matched(records, name) == Matched(records[1..], name)
  {
  }

  /** The redirect target is public, so following a redirect never redirects again. */
  lemma RedirectIsFinal(matched: seq<RouteRecord>, token: Option<string>)
    ensures BeforeEach(matched, token).Redirect? ==>
      var target := BeforeEach(matched, token).routeName;
      Matched(Routes, target).Some? && BeforeEach(Matched(Routes, target).value, token) == Proceed
  {
    PublicRoutes(LoginName, token);
  }
}
