/**
 * The application's route table and how a path resolves against it, given
 * the session's `status` flag (true when a user is signed in).
 *
 * A path is the sequence of its non-empty segments, as the router sees it
 * after splitting on `/`: `/` is `[]`, `/article/42` is `["article", "42"]`.
 * The table is transcribed as data: content pages nested under the layout
 * route `/`, the two sign-in pages at top level, and the catch-all `*` last.
 */
module Routes {
  import opened Optional

  type Path = seq<string>

  const Root: Path := []
  const LoginPath: Path := ["login"]
  const SignupPath: Path := ["signup"]
  const AddArticlePath: Path := ["add-article"]

  datatype Page =
    | Homepage | About | Contact | Articles | SingleArticle | AddArticles
    | LoginPage | Signup | NotFound

  /** A literal segment, or a dynamic one such as `:id` that binds one
      non-empty segment under the given name. */
  datatype PatternSegment = Static(text: string) | Param(name: string)

  /** A route path: a fixed list of segments, or the catch-all `*`. */
  datatype Pattern = Segments(segments: seq<PatternSegment>) | CatchAll

  /** A route element: a page, a `<Navigate to=…>`, or a choice on `status`. */
  datatype Element =
    | Show(page: Page)
    | NavigateTo(target: Path)
    | ByStatus(signedIn: Element, signedOut: Element)

  /** `inLayout` is true for the children of the `/` route, which render
      inside `HomeLayout`. */
  datatype Route = Route(pattern: Pattern, element: Element, inLayout: bool)

  /** What the router does for a path: render a page (with the dynamic
      segments it bound) or navigate elsewhere. */
  datatype Resolution =
    | Render(page: Page, params: map<string, string>, inLayout: bool)
    | Redirect(to: Path)

  const Table: seq<Route> := [
    Route(Segments([]), Show(Homepage), true),
    Route(Segments([Static("about")]), Show(About), true),
    Route(Segments([Static("contact")]), Show(Contact), true),
    Route(Segments([Static("articles")]), Show(Articles), true),
    Route(Segments([Static("article"), Param("id")]), Show(SingleArticle), true),
    Route(Segments([Static("add-article")]), ByStatus(Show(AddArticles), NavigateTo(LoginPath)), true),
    Route(Segments([Static("login")]), ByStatus(NavigateTo(Root), Show(LoginPage)), false),
    Route(Segments([Static("signup")]), ByStatus(NavigateTo(Root), Show(Signup)), false),
    Route(CatchAll, Show(NotFound), false)
  ]

  /** Matches a list of pattern segments against a path, returning the
      dynamic segments it binds. */
  function MatchSegments(pattern: seq<PatternSegment>, path: Path): (r: Maybe<map<string, string>>)
    ensures r.Just? ==> |path| == |pattern|
    ensures r.Just? ==> forall i :: 0 <= i < |pattern| && pattern[i].Static? ==> path[i] == pattern[i].text
    ensures r.Just? ==> forall i :: 0 <= i < |pattern| && pattern[i].Param? ==> path[i] != ""
    decreases pattern
  {
    if pattern == [] then
      if path == [] then Just(map[]) else Nothing
    else if path == [] then Nothing
    else
      var head := match pattern[0]
        case Static(text) => if path[0] == text then Just(map[]) else Nothing
        case Param(name) => if path[0] != "" then Just(map[name := path[0]]) else Nothing;
      match head
      case Nothing => Nothing
      case Just(bound) =>
        match MatchSegments(pattern[1..], path[1..])
        case Nothing => Nothing
        case Just(rest) => Just(bound + rest)
  }

  function Match(pattern: Pattern, path: Path): Maybe<map<string, string>> {
    match pattern
    case CatchAll => Just(map[])
    case Segments(segments) => MatchSegments(segments, path)
  }

  /** Evaluates a route element for the current `status`. */
  function Evaluate(e: Element, status: bool, params: map<string, string>, inLayout: bool): Resolution {
    match e
    case Show(page) => Render(page, params, inLayout)
    case NavigateTo(target) => Redirect(target)
    case ByStatus(signedIn, signedOut) =>
      if status then Evaluate(signedIn, status, params, inLayout)
      else Evaluate(signedOut, status, params, inLayout)
  }

  /** The route of `routes` at index `i` or later that is tried first and
      matches `path`, applied to the current `status`. */
  function FirstMatch(routes: seq<Route>, i: nat, path: Path, status: bool): Maybe<Resolution>
    decreases |routes| - i
  {
    if i >= |routes| then Nothing
    else match Match(routes[i].pattern, path)
      case Just(params) => Just(Evaluate(routes[i].element, status, params, routes[i].inLayout))
      case Nothing => FirstMatch(routes, i + 1, path, status)
  }

  /** Resolves a path against the application's table. The catch-all route
      guarantees an answer; it is listed last, and `PatternsDisjoint` shows
      no other two routes can match the same path, so taking the first match
      is the router's choice of the most specific one. */
  function Resolve(path: Path, status: bool): (r: Resolution)
    ensures r == Expected(path, status)
    ensures r.Redirect? ==> r.to == Root || r.to == LoginPath
    ensures r.Redirect? ==> path == AddArticlePath || path == LoginPath || path == SignupPath
    ensures r.Redirect? && r.to == LoginPath <==> path == AddArticlePath && !status
    ensures r.Render? && r.inLayout <==> r.Render? && r.page != LoginPage && r.page != Signup && r.page != NotFound
  {
    FirstMatchIsExpected(path, status);
    match FirstMatch(Table, 0, path, status)
    case Just(r) => r
    case Nothing => Render(NotFound, map[], false)
  }

  /** The behaviour the table is meant to have, written case by case without
      reference to it. */
  function Expected(path: Path, status: bool): Resolution {
    if path == [] then Render(Homepage, map[], true)
    else if path == ["about"] then Render(About, map[], true)
    else if path == ["contact"] then Render(Contact, map[], true)
    else if path == ["articles"] then Render(Articles, map[], true)
    else if |path| == 2 && path[0] == "article" && path[1] != "" then
      Render(SingleArticle, map["id" := path[1]], true)
    else if path == AddArticlePath then
      if status then Render(AddArticles, map[], true) else Redirect(LoginPath)
    else if path == LoginPath then
      if status then Redirect(Root) else Render(LoginPage, map[], false)
    else if path == SignupPath then
      if status then Redirect(Root) else Render(Signup, map[], false)
    else Render(NotFound, map[], false)
  }

  lemma MatchOneStatic(text: string, path: Path)
    ensures MatchSegments([Static(text)], path) == if path == [text] then Just(map[]) else Nothing
  {
    if path != [] && path[0] == text {
      assert [Static(text)][1..] == [];
      assert path == [text] <==> path[1..] == [];
      var rest := MatchSegments([], path[1..]);
      if rest.Just? { assert map[] + rest.value == map[]; }
    }
  }

  lemma MatchArticle(path: Path)
    ensures MatchSegments([Static("article"), Param("id")], path) ==
      if |path| == 2 && path[0] == "article" && path[1] != "" then Just(map["id" := path[1]]) else Nothing
  {
    var pattern := [Static("article"), Param("id")];
    assert pattern[1..] == [Param("id")];
    assert [Param("id")][1..] == [];
    if path != [] && path[0] == "article" {
      var tail := path[1..];
      if tail != [] && tail[0] != "" {
        assert tail[1..] == [] <==> |path| == 2;
        assert map["id" := tail[0]] + map[] == map["id" := tail[0]];
        assert map[] + map["id" := tail[0]] == map["id" := tail[0]];
      }
    }
  }

  /** What each route of the table matches, in closed form. */
  lemma TableMatches(path: Path)
    ensures Match(Table[0].pattern, path) == if path == [] then Just(map[]) else Nothing
    ensures Match(Table[1].pattern, path) == if path == ["about"] then Just(map[]) else Nothing
    ensures Match(Table[2].pattern, path) == if path == ["contact"] then Just(map[]) else Nothing
    ensures Match(Table[3].pattern, path) == if path == ["articles"] then Just(map[]) else Nothing
    ensures Match(Table[4].pattern, path) ==
      if |path| == 2 && path[0] == "article" && path[1] != "" then Just(map["id" := path[1]]) else Nothing
    ensures Match(Table[5].pattern, path) == if path == AddArticlePath then Just(map[]) else Nothing
    ensures Match(Table[6].pattern, path) == if path == LoginPath then Just(map[]) else Nothing
    ensures Match(Table[7].pattern, path) == if path == SignupPath then Just(map[]) else Nothing
    ensures Match(Table[8].pattern, path) == Just(map[])
  {
    MatchOneStatic("about", path);
    MatchOneStatic("contact", path);
    MatchOneStatic("articles", path);
    MatchArticle(path);
    MatchOneStatic("add-article", path);
    MatchOneStatic("login", path);
    MatchOneStatic("signup", path);
  }

  /** Trying the table's routes in order finds a match for every path, and
      what it yields agrees with the case-by-case description on every path
      and either status. */
  lemma FirstMatchIsExpected(path: Path, status: bool)
    ensures FirstMatch(Table, 0, path, status) == Just(Expected(path, status))
  {
    TableMatches(path);
    var t := Table;
    assert FirstMatch(t, 8, path, status) == Just(Render(NotFound, map[], false));
    assert FirstMatch(t, 7, path, status).Just?;
    assert FirstMatch(t, 6, path, status).Just?;
    assert FirstMatch(t, 5, path, status).Just?;
    assert FirstMatch(t, 4, path, status).Just?;
    assert FirstMatch(t, 3, path, status).Just?;
    assert FirstMatch(t, 2, path, status).Just?;
    assert FirstMatch(t, 1, path, status).Just?;
    assert FirstMatch(t, 0, path, status).Just?;
  }

  /** The paths one of the listed (non-catch-all) routes accepts, stated
      without reference to the table. */
  predicate Listed(path: Path) {
    || path == []
    || path == ["about"]
    || path == ["contact"]
    || path == ["articles"]
    || (|path| == 2 && path[0] == "article" && path[1] != "")
    || path == ["add-article"]
    || path == ["login"]
    || path == ["signup"]
  }

  /** Apart from the catch-all, no two routes of the table match one path. */
  lemma PatternsDisjoint(path: Path, i: nat, j: nat)
    requires i < j < |Table| - 1
    ensures Match(Table[i].pattern, path).Nothing? || Match(Table[j].pattern, path).Nothing?
  {
  }

  /** The listed routes match exactly the `Listed` paths. */
  lemma ListedMatchesTable(path: Path)
    ensures Listed(path) <==> exists i :: 0 <= i < |Table| - 1 && Match(Table[i].pattern, path).Just?
  {
    if Listed(path) {
      if path == [] { assert Match(Table[0].pattern, path).Just?; }
      else if path == ["about"] { assert Match(Table[1].pattern, path).Just?; }
      else if path == ["contact"] { assert Match(Table[2].pattern, path).Just?; }
      else if path == ["articles"] { assert Match(Table[3].pattern, path).Just?; }
      else if path == ["add-article"] { assert Match(Table[5].pattern, path).Just?; }
      else if path == ["login"] { assert Match(Table[6].pattern, path).Just?; }
      else if path == ["signup"] { assert Match(Table[7].pattern, path).Just?; }
      else { assert Match(Table[4].pattern, path).Just?; }
    }
  }

  /** `add-article` shows the editor to a signed-in user and sends everyone
      else to `/login`. */
  lemma AddArticleGate(status: bool)
    ensures status ==> Resolve(AddArticlePath, status) == Render(AddArticles, map[], true)
    ensures !status ==> Resolve(AddArticlePath, status) == Redirect(LoginPath)
  {
  }

  /** `/login` sends a signed-in user to `/`, and shows the login page
      otherwise. */
  lemma LoginGate(status: bool)
    ensures status ==> Resolve(LoginPath, status) == Redirect(Root)
    ensures !status ==> Resolve(LoginPath, status) == Render(LoginPage, map[], false)
  {
  }

  /** `/signup` sends a signed-in user to `/`, and shows the sign-up page
      otherwise. */
  lemma SignupGate(status: bool)
    ensures status ==> Resolve(SignupPath, status) == Redirect(Root)
    ensures !status ==> Resolve(SignupPath, status) == Render(Signup, map[], false)
  {
  }

  /** The content pages render the same page, inside the layout, whatever the
      session status; `article/:id` hands the segment to the page as `id`. */
  lemma PublicPages(status: bool, id: string)
    requires id != ""
    ensures Resolve(Root, status) == Render(Homepage, map[], true)
    ensures Resolve(["about"], status) == Render(About, map[], true)
    ensures Resolve(["contact"], status) == Render(Contact, map[], true)
    ensures Resolve(["articles"], status) == Render(Articles, map[], true)
    ensures Resolve(["article", id], status) == Render(SingleArticle, map["id" := id], true)
  {
  }

  /** Every path no listed route accepts renders the not-found page, outside
      the layout; every listed path renders something else or redirects. */
  lemma NotFoundFallback(path: Path, status: bool)
    ensures !Listed(path) <==> Resolve(path, status) == Render(NotFound, map[], false)
  {
  }

  /** Following a redirect once always lands on a page, and never on the
      not-found page: for either status, the target of a redirect resolves to
      a `Render` of a listed route. */
  lemma NoRedirectLoop(path: Path, status: bool)
    ensures Resolve(path, status).Redirect? ==> Resolve(Resolve(path, status).to, status).Render?
    ensures Resolve(path, status).Redirect? ==> Resolve(Resolve(path, status).to, status).page != NotFound
  {
  }
}
