/** The project gallery: the constant project table, the category filter read from and
    written back to the page's query string, the toggle on the filter buttons, the list of
    visible cards, and the details dialog opened for one project id. */
module Projects {
  import opened Wrappers
  import JsStrings

  /** One row of the table (the screenshot import is not modelled). */
  datatype Project = Project(id: int, title: string, category: string, tech: seq<string>,
                             short: string, visit: string)

  const ProjectTable: seq<Project> := [
    Project(1, "Taskgo", "Web APP", ["MERN Stack"],
            "A sleek task & productivity app with smart lists, drag-drop and calendar sync.",
            "https://taskgo.in/"),
    Project(2, "Medical Chatbot", "Chatbot", ["HTML,CSS", "JS", "Gemeni API"],
            "AI-assisted medical triage chatbot for patient guidance and triaging.",
            "https://muthu4558.github.io/Medical-chatbot-Nizzy/"),
    Project(3, "Musitechhub", "Web APP", ["MERN Stack"],
            "A creative agency site for Musitechhub \U{2014} portfolio, services & contact.",
            "https://musitechhub.com"),
    Project(4, "VVJM - School", "Landing", ["HTML,CSS", "JS", "PHP"],
            "School website with events, gallery and CMS-driven news pages.",
            "https://muthu4558.github.io/VVJM/"),
    Project(5, "E-commerce (Generic)", "E-commerce", ["MERN Stack"],
            "Modern e-commerce platform \U{2014} cart, checkout & order dashboard.",
            "https://origin-organic.onrender.com"),
    Project(6, "Cake E-commerce", "E-commerce", ["HTML", "CSS", "JS"],
            "Specialised bakery storefront with custom cake builder UI.",
            "https://muthu4558.github.io/Simple-cakeshop/"),
    Project(7, "Clothing E-commerce", "E-commerce", ["HTML", "CSS", "JS"],
            "Fashion storefront with product filters, sizes and variants.",
            "https://muthu4558.github.io/e-commerce/"),
    Project(8, "Education \U{2014} Online Test & Notes", "Web APP", ["MERN Stack"],
            "Online test portal with notes management and result analytics.",
            "https://neet-aspire.onrender.com"),
    Project(9, "28 Sector Landing Page", "Web APP", ["MERN Stack"],
            "High-converting landing page for a niche product / vertical.",
            "https://nizcare-co.onrender.com/")
  ]

  /** The filter buttons, in order; "All" shows every project. */
  const Categories: seq<string> := ["All", "Web APP", "E-commerce", "Chatbot", "Landing"]

  const AllFilter := "All"
  const FilterParam := "filter"

  /** The filter taken from the `filter` query parameter (also on `popstate`): kept when it
      is one of the categories, "All" otherwise, including when it is absent or empty. */
  function NormalizeFilter(p: Option<string>): (f: string)
    ensures f in Categories
    ensures p.Some? && p.value in Categories ==> f == p.value
    ensures !(p.Some? && p.value in Categories) ==> f == AllFilter
  {
    if p.Some? && p.value != "" && p.value in Categories then p.value else AllFilter
  }

  /** The result of clicking filter button `c` when `prev` is selected: the same button
      again goes back to "All". */
  function Toggle(prev: string, c: string): (f: string)
    ensures prev in Categories && c in Categories ==> f in Categories
    ensures f == AllFilter <==> prev == c || c == AllFilter
    ensures f != AllFilter ==> f == c
  {
    if prev == c then AllFilter else c
  }

  /** Clicking the same button twice from another selection ends on "All". */
  lemma ToggleTwice(prev: string, c: string)
    requires prev != c
    ensures Toggle(Toggle(prev, c), c) == AllFilter
  {
  }

  // ---------------------------------------------------------------------------
  // Query parameters, as the ordered list of name/value pairs of a URLSearchParams.

  type Params = seq<(string, string)>

  /** `params.get(n)`: the value of the first pair named `n`. */
  function GetParam(ps: Params, n: string): Option<string> {
    if ps == [] then None
    else if ps[0].0 == n then Some(ps[0].1)
    else GetParam(ps[1..], n)
  }

  /** How many pairs are named `n`. */
  function CountName(ps: Params, n: string): nat {
    if ps == [] then 0 else (if ps[0].0 == n then 1 else 0) + CountName(ps[1..], n)
  }

  /** Position of the first pair named `n`, or `|ps|` when there is none. */
  function ParamIndex(ps: Params, n: string): (i: nat)
    ensures i <= |ps|
    ensures i < |ps| ==> ps[i].0 == n
    ensures forall k :: 0 <= k < i ==> ps[k].0 != n
  {
    if ps == [] || ps[0].0 == n then 0 else 1 + ParamIndex(ps[1..], n)
  }

  /** `get` returns the value of the first pair named `n`, and nothing when no pair has
      that name. */
  lemma {:induction false} GetParamSpec(ps: Params, n: string)
    ensures var i := ParamIndex(ps, n);
            GetParam(ps, n) == if i == |ps| then None else Some(ps[i].1)
  {
    if ps != [] && ps[0].0 != n {
      GetParamSpec(ps[1..], n);
    }
  }

  /** `params.delete(n)`: every pair named `n` goes, the others stay in order. */
  function DeleteParam(ps: Params, n: string): (r: Params)
    ensures |r| <= |ps|
    ensures forall k :: 0 <= k < |r| ==> r[k].0 != n
  {
    if ps == [] then []
    else (if ps[0].0 == n then [] else [ps[0]]) + DeleteParam(ps[1..], n)
  }

  /** `delete(n)` keeps exactly the pairs with another name. */
  lemma {:induction false} DeleteParamMembers(ps: Params, n: string)
    ensures forall q :: q in DeleteParam(ps, n) <==> q in ps && q.0 != n
  {
    if ps != [] {
      DeleteParamMembers(ps[1..], n);
      assert ps == [ps[0]] + ps[1..];
    }
  }

  /** `delete(n)` keeps every pair with another name, as often as it occurred. */
  lemma {:induction false} DeleteKeepsCounts(ps: Params, n: string, m: string)
    requires m != n
    ensures CountName(DeleteParam(ps, n), m) == CountName(ps, m)
  {
    if ps != [] {
      DeleteKeepsCounts(ps[1..], n, m);
      CountNameConcat(if ps[0].0 == n then [] else [ps[0]], DeleteParam(ps[1..], n), m);
    }
  }

  /** `delete(n)` keeps the remaining pairs in their original order. */
  lemma {:induction false} DeleteKeepsOrder(ps: Params, n: string)
    ensures IsSubsequence(DeleteParam(ps, n), ps)
  {
    if ps != [] {
      DeleteKeepsOrder(ps[1..], n);
      var r := DeleteParam(ps, n);
      if ps[0].0 != n {
        assert r[0] == ps[0] && r[1..] == DeleteParam(ps[1..], n);
      } else {
        assert r == DeleteParam(ps[1..], n);
      }
    }
  }

  /** `params.set(n, v)`: the first pair named `n` takes the value `v` and the later ones
      go; with no such pair, `(n, v)` is appended. */
  function SetParam(ps: Params, n: string, v: string): Params {
    var i := ParamIndex(ps, n);
    if i == |ps| then ps + [(n, v)]
    else ps[..i] + [(n, v)] + DeleteParam(ps[i + 1..], n)
  }

  lemma {:induction false} DeleteParamConcat(a: Params, b: Params, n: string)
    ensures DeleteParam(a + b, n) == DeleteParam(a, n) + DeleteParam(b, n)
  {
    if a == [] {
      assert a + b == b;
    } else {
      assert (a + b)[0] == a[0] && (a + b)[1..] == a[1..] + b;
      DeleteParamConcat(a[1..], b, n);
    }
  }

  lemma {:induction false} DeleteParamAbsent(ps: Params, n: string)
    requires forall k :: 0 <= k < |ps| ==> ps[k].0 != n
    ensures DeleteParam(ps, n) == ps
  {
    if ps != [] {
      DeleteParamAbsent(ps[1..], n);
    }
  }

  lemma {:induction false} DeleteParamTwice(ps: Params, n: string)
    ensures DeleteParam(DeleteParam(ps, n), n) == DeleteParam(ps, n)
  {
    DeleteParamAbsent(DeleteParam(ps, n), n);
  }

  /** After `set`, `get` returns the value just set. */
  lemma GetAfterSet(ps: Params, n: string, v: string)
    ensures GetParam(SetParam(ps, n, v), n) == Some(v)
  {
    var i := ParamIndex(ps, n);
    var r := SetParam(ps, n, v);
    var j := if i == |ps| then |ps| else i;
    assert r[j] == (n, v);
    assert r[..j] == ps[..j];
    GetParamAt(r, n, j);
  }

  /** `get` finds the first pair named `n`. */
  lemma {:induction false} GetParamAt(ps: Params, n: string, j: nat)
    requires j < |ps| && ps[j].0 == n
    requires forall k :: 0 <= k < j ==> ps[k].0 != n
    ensures GetParam(ps, n) == Some(ps[j].1)
  {
    if j > 0 {
      GetParamAt(ps[1..], n, j - 1);
    }
  }

  /** After `delete`, `get` finds nothing. */
  lemma GetAfterDelete(ps: Params, n: string)
    ensures GetParam(DeleteParam(ps, n), n) == None
  {
    GetParamSpec(DeleteParam(ps, n), n);
  }

  /** `set` leaves exactly one pair named `n`. */
  lemma SetParamSingle(ps: Params, n: string, v: string)
    ensures CountName(SetParam(ps, n, v), n) == 1
  {
    var i := ParamIndex(ps, n);
    if i == |ps| {
      CountNameConcat(ps, [(n, v)], n);
      CountNameAbsent(ps, n);
    } else {
      CountNameConcat(ps[..i] + [(n, v)], DeleteParam(ps[i + 1..], n), n);
      CountNameConcat(ps[..i], [(n, v)], n);
      CountNameAbsent(ps[..i], n);
      CountNameAbsent(DeleteParam(ps[i + 1..], n), n);
    }
  }

  lemma {:induction false} CountNameConcat(a: Params, b: Params, n: string)
    ensures CountName(a + b, n) == CountName(a, n) + CountName(b, n)
  {
    if a == [] {
      assert a + b == b;
    } else {
      assert (a + b)[0] == a[0] && (a + b)[1..] == a[1..] + b;
      CountNameConcat(a[1..], b, n);
    }
  }

  lemma {:induction false} CountNameAbsent(ps: Params, n: string)
    requires forall k :: 0 <= k < |ps| ==> ps[k].0 != n
    ensures CountName(ps, n) == 0
  {
    if ps != [] {
      CountNameAbsent(ps[1..], n);
    }
  }

  /** `set` changes nothing but the pairs named `n`: the other pairs keep their order. */
  lemma SetKeepsOthers(ps: Params, n: string, v: string)
    ensures DeleteParam(SetParam(ps, n, v), n) == DeleteParam(ps, n)
  {
    var i := ParamIndex(ps, n);
    if i == |ps| {
      DeleteParamConcat(ps, [(n, v)], n);
    } else {
      var pre, rest := ps[..i], ps[i + 1..];
      DeleteParamConcat(pre + [(n, v)], DeleteParam(rest, n), n);
      DeleteParamConcat(pre, [(n, v)], n);
      DeleteParamTwice(rest, n);
      assert ps == pre + [ps[i]] + rest;
      DeleteParamConcat(pre + [ps[i]], rest, n);
      DeleteParamConcat(pre, [ps[i]], n);
    }
  }

  /** Removing the pairs named `n` does not change what `get` returns for another name. */
  lemma {:induction false} GetIgnoresDelete(ps: Params, n: string, m: string)
    requires m != n
    ensures GetParam(DeleteParam(ps, n), m) == GetParam(ps, m)
  {
    if ps != [] {
      GetIgnoresDelete(ps[1..], n, m);
      var d := DeleteParam(ps, n);
      if ps[0].0 != n {
        assert d[0] == ps[0] && d[1..] == DeleteParam(ps[1..], n);
      } else {
        assert d == [] + DeleteParam(ps[1..], n) == DeleteParam(ps[1..], n);
      }
    }
  }

  /** `get` for any other name is not affected by `set(n, v)`. */
  lemma GetOtherAfterSet(ps: Params, n: string, v: string, m: string)
    requires m != n
    ensures GetParam(SetParam(ps, n, v), m) == GetParam(ps, m)
  {
    SetKeepsOthers(ps, n, v);
    GetIgnoresDelete(SetParam(ps, n, v), n, m);
    GetIgnoresDelete(ps, n, m);
  }

  /** The parameter list written back by the URL effect: `filter` set to the filter unless
      the filter is empty or "All", in which case it is deleted. */
  function SyncParams(ps: Params, filter: string): Params {
    if filter != "" && filter != AllFilter then SetParam(ps, FilterParam, filter)
    else DeleteParam(ps, FilterParam)
  }

  /** Reading the written parameter back, as on first render or `popstate`, gives the
      filter that was written; the other parameters are untouched. */
  lemma SyncRoundTrip(ps: Params, filter: string)
    requires filter in Categories
    ensures NormalizeFilter(GetParam(SyncParams(ps, filter), FilterParam)) == filter
    ensures DeleteParam(SyncParams(ps, filter), FilterParam) == DeleteParam(ps, FilterParam)
    ensures GetParam(SyncParams(ps, filter), FilterParam)
            == if filter == AllFilter then None else Some(filter)
  {
    if filter != AllFilter {
      GetAfterSet(ps, FilterParam, filter);
      SetKeepsOthers(ps, FilterParam, filter);
    } else {
      GetAfterDelete(ps, FilterParam);
      DeleteParamTwice(ps, FilterParam);
    }
  }

  // ---------------------------------------------------------------------------
  // URL strings.

  /** `pathname + (query ? "?" + query : "")`. */
  function BuildUrl(pathname: string, query: string): string {
    pathname + (if query != "" then "?" + query else "")
  }

  /** The path of a URL: everything before the first `?`. */
  function PathOf(url: string): string {
    url[..JsStrings.IndexOf(url, '?')]
  }

  /** The query of a URL: everything after the first `?`, empty when there is none. */
  function QueryOf(url: string): string {
    var i := JsStrings.IndexOf(url, '?');
    if i == |url| then "" else url[i + 1..]
  }

  /** A built URL splits back into the path and the query it was built from, as long as
      the path holds no `?` (a `pathname` never does); an empty query adds nothing. */
  lemma UrlRoundTrip(pathname: string, query: string)
    requires '?' !in pathname
    ensures PathOf(BuildUrl(pathname, query)) == pathname
    ensures QueryOf(BuildUrl(pathname, query)) == query
    ensures query == "" <==> BuildUrl(pathname, query) == pathname
  {
    if query == "" {
      assert BuildUrl(pathname, query) == pathname + "" == pathname;
      IndexOfSkips(pathname, "", '?');
    } else {
      var tail := "?" + query;
      var url := pathname + tail;
      assert BuildUrl(pathname, query) == url;
      IndexOfSkips(pathname, tail, '?');
      assert JsStrings.IndexOf(tail, '?') == 0;
      assert url[..|pathname|] == pathname && url[|pathname| + 1..] == query;
      assert |url| != |pathname|;
    }
  }

  /** The first `c` of `p + rest`, when `p` holds none, is the first `c` of `rest`. */
  lemma {:induction false} IndexOfSkips(p: string, rest: string, c: char)
    requires c !in p
    ensures JsStrings.IndexOf(p + rest, c) == |p| + JsStrings.IndexOf(rest, c)
  {
    if p == [] {
      assert p + rest == rest;
    } else {
      assert (p + rest)[0] == p[0] && (p + rest)[1..] == p[1..] + rest;
      IndexOfSkips(p[1..], rest, c);
    }
  }

  // ---------------------------------------------------------------------------
  // The visible cards.

  /** `projects.filter(p => filter === "All" || p.category === filter)`. */
  function Keep(ps: seq<Project>, filter: string): (r: seq<Project>)
    ensures |r| <= |ps|
  {
    if ps == [] then []
    else (if filter == AllFilter || ps[0].category == filter then [ps[0]] else [])
         + Keep(ps[1..], filter)
  }

  /** `a` is `b` with some elements left out, the rest in their original order. */
  predicate IsSubsequence<T(==)>(a: seq<T>, b: seq<T>)
    decreases |b|
  {
    if b == [] then a == []
    else (a != [] && a[0] == b[0] && IsSubsequence(a[1..], b[1..])) || IsSubsequence(a, b[1..])
  }

  /** With "All", every project is shown, in table order. */
  lemma {:induction false} KeepAll(ps: seq<Project>)
    ensures Keep(ps, AllFilter) == ps
  {
    if ps != [] {
      KeepAll(ps[1..]);
    }
  }

  /** Otherwise a project is shown exactly when its category is the filter. */
  lemma {:induction false} KeepMembers(ps: seq<Project>, filter: string)
    requires filter != AllFilter
    ensures forall p :: p in Keep(ps, filter) <==> p in ps && p.category == filter
  {
    if ps != [] {
      KeepMembers(ps[1..], filter);
      assert ps == [ps[0]] + ps[1..];
    }
  }

  /** The shown projects keep the table order. */
  lemma {:induction false} KeepOrdered(ps: seq<Project>, filter: string)
    ensures IsSubsequence(Keep(ps, filter), ps)
  {
    if ps != [] {
      KeepOrdered(ps[1..], filter);
      var r := Keep(ps, filter);
      if filter == AllFilter || ps[0].category == filter {
        assert r[0] == ps[0] && r[1..] == Keep(ps[1..], filter);
      } else {
        assert r == Keep(ps[1..], filter);
      }
    }
  }

  /** Total number of cards shown over the filters `cs`. */
  function CountShown(ps: seq<Project>, cs: seq<string>): nat {
    if cs == [] then 0 else |Keep(ps, cs[0])| + CountShown(ps, cs[1..])
  }

  /** How many of the filters `cs` a project with category `c` is shown under. */
  function Hits(c: string, cs: seq<string>): nat {
    if cs == [] then 0 else (if cs[0] == c then 1 else 0) + Hits(c, cs[1..])
  }

  predicate Distinct(cs: seq<string>) {
    forall i, j :: 0 <= i < j < |cs| ==> cs[i] != cs[j]
  }

  lemma {:induction false} HitsOnce(c: string, cs: seq<string>)
    requires Distinct(cs)
    ensures Hits(c, cs) == if c in cs then 1 else 0
  {
    if cs != [] {
      HitsOnce(c, cs[1..]);
      assert Distinct(cs[1..]) by {
        forall i, j | 0 <= i < j < |cs[1..]| ensures cs[1..][i] != cs[1..][j] {
          assert cs[1..][i] == cs[i + 1] && cs[1..][j] == cs[j + 1];
        }
      }
      if cs[0] == c {
        assert c !in cs[1..] by {
          forall j | 0 <= j < |cs[1..]| ensures cs[1..][j] != c { assert cs[1..][j] == cs[j + 1]; }
        }
      }
    }
  }

  lemma {:induction false} CountShownCons(ps: seq<Project>, cs: seq<string>)
    requires ps != [] && AllFilter !in cs
    ensures CountShown(ps, cs) == Hits(ps[0].category, cs) + CountShown(ps[1..], cs)
  {
    if cs != [] {
      CountShownCons(ps, cs[1..]);
    }
  }

  /** When every project's category is one of the distinct, non-"All" filters `cs`,
      the lists shown under those filters together hold each project exactly once. */
  lemma {:induction false} ShownPartition(ps: seq<Project>, cs: seq<string>)
    requires Distinct(cs) && AllFilter !in cs
    requires forall k :: 0 <= k < |ps| ==> ps[k].category in cs
    ensures CountShown(ps, cs) == |ps|
  {
    if ps == [] {
      CountShownEmpty(cs);
    } else {
      CountShownCons(ps, cs);
      HitsOnce(ps[0].category, cs);
      ShownPartition(ps[1..], cs);
    }
  }

  lemma {:induction false} CountShownEmpty(cs: seq<string>)
    ensures CountShown([], cs) == 0
  {
    if cs != [] {
      CountShownEmpty(cs[1..]);
    }
  }

  /** Every project of the table belongs to a category with its own button, other than
      "All"; so the four category filters split the table between them. */
  lemma TablePartition()
    ensures forall k :: 0 <= k < |ProjectTable| ==> ProjectTable[k].category in Categories[1..]
    ensures CountShown(ProjectTable, Categories[1..]) == |ProjectTable|
  {
    var cs := Categories[1..];
    assert cs == ["Web APP", "E-commerce", "Chatbot", "Landing"];
    ShownPartition(ProjectTable, cs);
  }

  // ---------------------------------------------------------------------------
  // The details dialog.

  /** `projects.find(x => x.id === id)`: the first project with that id, if any. */
  function Find(ps: seq<Project>, id: int): (r: Option<Project>)
    ensures r.Some? ==> r.value in ps && r.value.id == id
    ensures r.None? <==> forall k :: 0 <= k < |ps| ==> ps[k].id != id
  {
    if ps == [] then None
    else if ps[0].id == id then Some(ps[0])
    else Find(ps[1..], id)
  }

  predicate UniqueIds(ps: seq<Project>) {
    forall i, j :: 0 <= i < j < |ps| ==> ps[i].id != ps[j].id
  }

  /** With unique ids, the lookup finds the one project carrying the id. */
  lemma {:induction false} FindUnique(ps: seq<Project>, k: nat)
    requires UniqueIds(ps) && k < |ps|
    ensures Find(ps, ps[k].id) == Some(ps[k])
  {
    if k > 0 {
      assert ps[0].id != ps[k].id;
      assert UniqueIds(ps[1..]) by {
        forall i, j | 0 <= i < j < |ps[1..]| ensures ps[1..][i].id != ps[1..][j].id {
          assert ps[1..][i] == ps[i + 1] && ps[1..][j] == ps[j + 1];
        }
      }
      FindUnique(ps[1..], k - 1);
    }
  }

  /** The table's ids are unique, so the dialog shows one definite project. */
  lemma TableIdsUnique()
    ensures UniqueIds(ProjectTable)
    ensures forall k :: 0 <= k < |ProjectTable| ==> ProjectTable[k].id == k + 1
  {
    TableIdsNumbered();
  }

  lemma TableIdsNumbered()
    ensures forall k :: 0 <= k < |ProjectTable| ==> ProjectTable[k].id == k + 1
  {
    var t := ProjectTable;
    assert t[0].id == 1 && t[1].id == 2 && t[2].id == 3 && t[3].id == 4 && t[4].id == 5;
    assert t[5].id == 6 && t[6].id == 7 && t[7].id == 8 && t[8].id == 9;
  }

  // ---------------------------------------------------------------------------
  // The component state.

  /** The `filter` and `active` state of the gallery; `active` is the id of the project
      shown in the details dialog, `None` when it is closed. */
  class ProjectsView {
    var filter: string
    var active: Option<int>

    ghost predicate Valid()
      reads this
    {
      filter in Categories
    }

    /** First render: the filter comes from the current query parameters. */
    constructor (search: Params)
      ensures filter == NormalizeFilter(GetParam(search, FilterParam))
      ensures active == None
      ensures Valid()
    {
      filter := NormalizeFilter(GetParam(search, FilterParam));
      active := None;
    }

    /** A filter button: close the dialog and toggle the filter. */
    method HandleFilter(c: string)
      modifies this
      ensures active == None
      ensures filter == Toggle(old(filter), c)
      ensures old(Valid()) && c in Categories ==> Valid()
      ensures c == AllFilter ==> filter == AllFilter
    {
      active := None;
      filter := Toggle(filter, c);
    }

    /** Back/forward navigation: re-read the filter from the query parameters. */
    method OnPopState(search: Params)
      modifies this`filter
      ensures filter == NormalizeFilter(GetParam(search, FilterParam))
      ensures Valid()
    {
      filter := NormalizeFilter(GetParam(search, FilterParam));
    }

    /** The URL effect: the parameters with `filter` written back, and the URL passed to
        `history.replaceState`. Serialising the parameters is left to `serialize`. */
    method SyncUrl(search: Params, pathname: string, serialize: Params -> string)
      returns (params: Params, url: string)
      ensures params == SyncParams(search, filter)
      ensures url == BuildUrl(pathname, serialize(params))
      ensures Valid() ==> NormalizeFilter(GetParam(params, FilterParam)) == filter
      ensures Valid() ==> DeleteParam(params, FilterParam) == DeleteParam(search, FilterParam)
      ensures '?' !in pathname ==> PathOf(url) == pathname && QueryOf(url) == serialize(params)
    {
      params := SyncParams(search, filter);
      var query := serialize(params);
      url := BuildUrl(pathname, query);
      if Valid() {
        SyncRoundTrip(search, filter);
      }
      if '?' !in pathname {
        UrlRoundTrip(pathname, query);
      }
    }

    /** A project card's view button opens the dialog for that project. */
    method ShowDetails(id: int)
      requires Valid()
      modifies this`active
      ensures Valid()
      ensures active == Some(id)
    {
      active := Some(id);
    }

    /** The key handler, listening while the dialog is open: Escape closes it. */
    method OnKeyDown(key: string)
      requires Valid()
      modifies this`active
      ensures Valid()
      ensures active == if key == "Escape" then None else old(active)
    {
      if key == "Escape" {
        active := None;
      }
    }

    /** The dialog's close icon, its Close button and the backdrop all close it. */
    method Close()
      requires Valid()
      modifies this`active
      ensures Valid()
      ensures active == None
    {
      active := None;
    }

    /** The cards currently shown. */
    function Visible(): (r: seq<Project>)
      reads this
      ensures filter == AllFilter ==> r == ProjectTable
      ensures filter != AllFilter ==> forall p :: p in r <==> p in ProjectTable && p.category == filter
      ensures IsSubsequence(r, ProjectTable)
    {
      KeepOrdered(ProjectTable, filter);
      if filter == AllFilter then KeepAll(ProjectTable); Keep(ProjectTable, filter)
      else KeepMembers(ProjectTable, filter); Keep(ProjectTable, filter)
    }

    /** The project shown in the open dialog. */
    function ActiveProject(): (r: Option<Project>)
      reads this
      ensures active.None? ==> r.None?
      ensures r.Some? ==> active == Some(r.value.id) && r.value in ProjectTable
      ensures active.Some? && 1 <= active.value <= |ProjectTable|
              ==> r == Some(ProjectTable[active.value - 1])
    {
      if active.None? then None
      else if 1 <= active.value <= |ProjectTable| then
        TableIdsUnique();
        FindUnique(ProjectTable, active.value - 1);
        Find(ProjectTable, active.value)
      else Find(ProjectTable, active.value)
    }
  }
}
