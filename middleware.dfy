/**
  The route guard that runs before page requests. It inspects the session token
  and the request path and either lets the request through or redirects it to
  the feed, the sign-in page or the landing page. The framework only calls it for
  paths listed in its matcher.
*/
module Middleware {
  import opened Common

  /** The decoded session token. `role` is absent when the token has no role claim. */
  datatype Token = Token(role: Option<string>)

  /** What the guard answers: let the request through, or redirect it. */
  datatype Decision = Next | Redirect(target: string)

  const FeedPath := "/feed"
  const SignInPage := "/signin"
  const SignUpPage := "/signup"
  const Home := "/"

  /** The pages a signed-in user is sent away from (exact matches). */
  predicate IsAuthPage(path: string) {
    path == SignInPage || path == SignUpPage || path == Home
  }

  /** The admin area: a prefix test with no trailing slash. */
  predicate IsAdminPath(path: string) {
    StartsWith(path, "/admin")
  }

  /**
    The pages that need a signed-in user. `/feed/`, `/question/` and `/profile/`
    carry a trailing slash, so bare `/feed` is not among them; `/notification`
    does not, so `/notifications` is.
  */
  predicate IsProtectedPath(path: string) {
    || StartsWith(path, "/feed/")
    || StartsWith(path, "/question/")
    || StartsWith(path, "/profile/")
    || StartsWith(path, "/notification")
  }

  predicate IsAdmin(t: Token) {
    t.role == Some("ADMIN")
  }

  /**
    The guard's decision: an ordered chain of early returns, first match wins.
    Every redirect goes to one of three pages, and never to the requested path.
  */
  function Decide(token: Option<Token>, path: string): (d: Decision)
    ensures d.Redirect? ==> d.target == FeedPath || d.target == SignInPage || d.target == Home
    ensures d.Redirect? ==> d.target != path
  {
    if token.Some? && IsAuthPage(path) then
      Redirect(FeedPath)
    else if IsAdminPath(path) && token.None? then
      assert path != SignInPage by { Unguarded(SignInPage); }
      Redirect(SignInPage)
    else if IsAdminPath(path) && !IsAdmin(token.value) then
      Redirect(Home)
    else if token.None? && IsProtectedPath(path) then
      assert path != SignInPage by { Unguarded(SignInPage); }
      Redirect(SignInPage)
    else
      Next
  }

  /** The feed and the sign-in pages are neither admin nor protected paths. */
  lemma Unguarded(page: string)
    requires page == FeedPath || IsAuthPage(page)
    ensures !IsAdminPath(page) && !IsProtectedPath(page)
  {
    if page == SignInPage || page == SignUpPage {
      NotPrefixAt(page, "/admin", 1);
      NotPrefixAt(page, "/feed/", 1);
    }
  }

  // ---- the rules, one at a time ----

  /** A signed-in request for `/signin`, `/signup` or `/` goes to the feed. */
  lemma SignedInLeavesAuthPages(token: Option<Token>, path: string)
    requires token.Some? && IsAuthPage(path)
    ensures Decide(token, path) == Redirect(FeedPath)
  {
  }

  /** An admin path without a token goes to the sign-in page. */
  lemma AdminNeedsToken(path: string)
    requires IsAdminPath(path)
    ensures Decide(None, path) == Redirect(SignInPage)
  {
  }

  /** With a token, an admin path passes exactly when the role claim is `ADMIN`, else it goes home. */
  lemma AdminNeedsRole(t: Token, path: string)
    requires IsAdminPath(path)
    ensures Decide(Some(t), path) == if IsAdmin(t) then Next else Redirect(Home)
  {
    if IsAuthPage(path) {
      Unguarded(path);
    }
  }

  /** A protected path without a token goes to the sign-in page. */
  lemma ProtectedNeedsToken(path: string)
    requires IsProtectedPath(path)
    ensures Decide(None, path) == Redirect(SignInPage)
  {
  }

  /**
    The access policy stated declaratively: a request passes exactly when a
    signed-in user is not asking for a sign-in page, the admin area is reached
    only with the admin role, and a protected page only with a token.
  */
  ghost predicate Allowed(token: Option<Token>, path: string) {
    && (token.Some? ==> !IsAuthPage(path))
    && (IsAdminPath(path) ==> token.Some? && IsAdmin(token.value))
    && (token.None? ==> !IsProtectedPath(path))
  }

  lemma PassesIffAllowed(token: Option<Token>, path: string)
    ensures Decide(token, path) == Next <==> Allowed(token, path)
  {
  }

  /**
    Following the guard's redirects with the same token never loops: the page
    it redirects to passes, or (for a signed-in non-admin sent home) redirects
    once more to the feed, which passes.
  */
  lemma RedirectsSettle(token: Option<Token>, path: string)
    ensures var d := Decide(token, path);
      d.Redirect? ==>
        var d2 := Decide(token, d.target);
        d2 == Next || (d2 == Redirect(FeedPath) && Decide(token, FeedPath) == Next)
  {
  }

  // ---- the matcher ----

  /** A matcher entry: an exact path, or `base/:path*` (the base itself or anything below it). */
  datatype Pattern = Exact(path: string) | Subtree(base: string)

  /** The paths the framework runs the guard on, in the order they are listed. */
  const Matcher: seq<Pattern> := [
    Exact("/signin"), Exact("/signup"), Exact("/"), Exact("/feed"),
    Subtree("/feed"), Subtree("/question"), Subtree("/profile"),
    Exact("/notification"), Subtree("/admin"), Subtree("/search")
  ]

  predicate PatternMatches(p: Pattern, path: string) {
    match p
    case Exact(s) => path == s
    case Subtree(b) => path == b || StartsWith(path, b + "/")
  }

  predicate Matches(path: string) {
    exists i :: 0 <= i < |Matcher| && PatternMatches(Matcher[i], path)
  }

  /**
    What a request actually gets: the guard's decision on matched paths,
    pass-through elsewhere. A request passes exactly when its path is outside
    the matcher or the access policy allows it, and every redirect target is
    itself a matched path, so the guard sees the redirected request too.
  */
  function Effective(token: Option<Token>, path: string): (d: Decision)
    ensures !Matches(path) ==> d == Next
    ensures Matches(path) ==> d == Decide(token, path)
    ensures d == Next <==> !Matches(path) || Allowed(token, path)
    ensures d.Redirect? ==> Matches(d.target) && d.target != path
  {
    PassesIffAllowed(token, path);
    TargetsMatched();
    if Matches(path) then Decide(token, path) else Next
  }

  /** The three redirect targets are all in the matcher. */
  lemma TargetsMatched()
    ensures Matches(FeedPath) && Matches(SignInPage) && Matches(Home)
  {
    assert PatternMatches(Matcher[3], FeedPath);
    assert PatternMatches(Matcher[0], SignInPage);
    assert PatternMatches(Matcher[2], Home);
  }

  /**
    With the matcher in front of the guard there is still no redirect loop:
    the redirected request passes, or is redirected once more to the feed,
    which passes.
  */
  lemma EffectiveSettles(token: Option<Token>, path: string)
    ensures var d := Effective(token, path);
      d.Redirect? ==>
        var d2 := Effective(token, d.target);
        d2 == Next || (d2 == Redirect(FeedPath) && Effective(token, FeedPath) == Next)
  {
    RedirectsSettle(token, path);
    TargetsMatched();
  }

  /** Bare `/feed` is in the matcher, yet a request without a token passes through it. */
  lemma BareFeedUnguarded()
    ensures Matches(FeedPath)
    ensures Effective(None, FeedPath) == Next
  {
    assert PatternMatches(Matcher[3], FeedPath);
    Unguarded(FeedPath);
  }

  /** Unmatched rules pass through: the search area, and the sign-in page without a token. */
  lemma UnmatchedRulesPass(token: Option<Token>, rest: string)
    ensures Effective(token, "/search/" + rest) == Next
    ensures Effective(None, SignInPage) == Next
  {
    var p := "/search/" + rest;
    assert p[..8] == "/search/";
    assert PatternMatches(Matcher[9], p);
    NotPrefixAt(p, "/admin", 1);
    NotPrefixAt(p, "/feed/", 1);
    NotPrefixAt(p, "/profile/", 1);
    if |p| >= 10 { NotPrefixAt(p, "/question/", 1); }
    if |p| >= 13 { NotPrefixAt(p, "/notification", 1); }
    assert PatternMatches(Matcher[0], SignInPage);
    Unguarded(SignInPage);
  }

  /** A path matched by entry `i` has, at position 1, the second character of that entry. */
  lemma MatchedSecondChar(i: nat, path: string)
    requires i < |Matcher| && PatternMatches(Matcher[i], path) && |path| > 1
    ensures Matcher[i].Exact? ==> path[1] == Matcher[i].path[1]
    ensures Matcher[i].Subtree? ==> path[1] == Matcher[i].base[1]
  {
  }

  /**
    Within the matcher the `/admin` prefix test only ever sees `/admin` itself
    or paths below `/admin/`: a path such as `/administrator` never reaches the guard.
  */
  lemma MatchedAdminPaths(path: string)
    requires Matches(path) && IsAdminPath(path)
    ensures path == "/admin" || StartsWith(path, "/admin/")
  {
    var i :| 0 <= i < |Matcher| && PatternMatches(Matcher[i], path);
    PrefixChar(path, "/admin", 1);
    MatchedSecondChar(i, path);
  }

  /**
    Within the matcher the `/notification` prefix test only ever sees exactly
    `/notification`: `/notifications` and the like never reach the guard.
  */
  lemma MatchedNotificationPaths(path: string)
    requires Matches(path) && StartsWith(path, "/notification")
    ensures path == "/notification"
  {
    var i :| 0 <= i < |Matcher| && PatternMatches(Matcher[i], path);
    PrefixChar(path, "/notification", 1);
    MatchedSecondChar(i, path);
  }

  /** The prefix tests alone would guard `/notifications` and `/administrator`; the matcher keeps them out. */
  lemma PrefixQuirksOutsideMatcher()
    ensures Decide(None, "/notifications") == Redirect(SignInPage)
    ensures Decide(None, "/administrator") == Redirect(SignInPage)
    ensures Effective(None, "/notifications") == Next
    ensures Effective(None, "/administrator") == Next
  {
    var n := "/notifications";
    var a := "/administrator";
    assert n[..13] == "/notification";
    assert a[..6] == "/admin";
    if Matches(n) {
      MatchedNotificationPaths(n);
    }
    if Matches(a) {
      MatchedAdminPaths(a);
      PrefixChar(a, "/admin/", 6);
    }
  }
}
