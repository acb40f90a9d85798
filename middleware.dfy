/**
 The request gate (middleware.ts): which paths are reachable without a
 session, and the pass-or-redirect decision for every other path.
 */
module Middleware {
  import opened Records
  import opened JsText

  /** The name of the session cookie the login route sets. */
  const AuthCookie := "batchmail_auth"

  const LoginPath := "/login"

  /** `PUBLIC_PATHS`, in insertion order. */
  const PublicPaths: seq<string> := [LoginPath, "/api/auth/login", "/api/auth/logout", "/_next", "/favicon.ico"]

  /** The alternatives of the static-asset pattern. */
  const StaticExtensions: seq<string> :=
    ["png", "jpg", "jpeg", "gif", "svg", "webp", "ico", "txt", "json", "xml", "css", "js", "map"]

  /** `pathname === p || pathname.startsWith(p + '/')` */
  predicate Under(pathname: string, p: string) {
    pathname == p || StartsWith(pathname, p + "/")
  }

  /** `/[.](png|…|map)$/i.test(pathname)`: the path ends with a dot and one
      of the extensions, ASCII letters compared without regard to case. */
  predicate HasStaticExtension(pathname: string) {
    exists i :: 0 <= i < |StaticExtensions| && EndsWith(LowerAscii(pathname), "." + StaticExtensions[i])
  }

  /** `isPublicPath(pathname)`: the guards in their order. */
  predicate IsPublicPath(pathname: string) {
    if pathname == "/" then false
    else if StartsWith(pathname, "/_next") then true
    else if exists i :: 0 <= i < |PublicPaths| && Under(pathname, PublicPaths[i]) then true
    else HasStaticExtension(pathname)
  }

  datatype Decision = Pass | RedirectToLogin(redirect: string)

  /** `middleware(req)`: public paths pass; any other path passes only with
      a non-empty session cookie, and otherwise is sent to the login page
      with the requested path as its `redirect` parameter. */
  function Decide(pathname: string, cookies: map<string, string>): (d: Decision)
    ensures d.RedirectToLogin? <==> !IsPublicPath(pathname) && !Truthy(Lookup(cookies, AuthCookie))
    ensures d.RedirectToLogin? ==> d.redirect == pathname
  {
    if IsPublicPath(pathname) then Pass
    else if !Truthy(Lookup(cookies, AuthCookie)) then RedirectToLogin(pathname)
    else Pass
  }

  /** The root is always gated. */
  lemma RootIsGated(cookies: map<string, string>)
    ensures !IsPublicPath("/")
    ensures AuthCookie !in cookies ==> Decide("/", cookies) == RedirectToLogin("/")
  {
  }

  /** Everything under the framework's asset prefix is public, even a path
      that merely begins with the same letters. */
  lemma FrameworkAssetsArePublic(pathname: string)
    requires StartsWith(pathname, "/_next")
    ensures IsPublicPath(pathname)
  {
  }

  /** A listed path is public, and so is everything below it. */
  lemma ListedPathsArePublic(i: nat, below: string)
    requires i < |PublicPaths|
    ensures IsPublicPath(PublicPaths[i])
    ensures IsPublicPath(PublicPaths[i] + "/" + below)
  {
    var p := PublicPaths[i];
    assert Under(p, p);
    assert (p + "/" + below)[..|p + "/"|] == p + "/";
    assert Under(p + "/" + below, p);
    assert p + "/" + below != "/";
  }

  /** A bare prefix is not enough: "/loginx" is neither a listed path nor
      below one, has no asset extension, and is gated. */
  lemma LoginPrefixIsGated()
    ensures !IsPublicPath("/loginx")
  {
    var path := "/loginx";
    assert path[..7] == path;
    assert path[6] != "/login/"[6] && path[1] != "/_next/"[1];
    assert !Under(path, PublicPaths[0]) && !Under(path, PublicPaths[3]);
    assert !StartsWith(path, "/_next");
    assert LowerAscii(path) == path;
    forall i | 0 <= i < |StaticExtensions| ensures !EndsWith(path, "." + StaticExtensions[i]) {
      var suffix := "." + StaticExtensions[i];
      if |suffix| <= |path| {
        assert path[|path| - |suffix|..][0] == path[|path| - |suffix|] != '.';
      }
    }
  }

  /** A path that ends in a dot and an asset extension is public, with
      the extension's ASCII letters in any case ("/Logo.PNG" as well as
      "/logo.png"). */
  lemma StaticAssetsArePublic(base: string, ext: string, i: nat)
    requires i < |StaticExtensions| && LowerAscii(ext) == StaticExtensions[i]
    ensures IsPublicPath(base + "." + ext)
  {
    var path := base + "." + ext;
    var suffix := "." + StaticExtensions[i];
    assert |suffix| == |ext| + 1 <= |path|;
    forall k | 0 <= k < |suffix| ensures LowerAscii(path)[|path| - |suffix| + k] == suffix[k] {
      if k > 0 {
        assert path[|path| - |suffix| + k] == ext[k - 1];
      }
    }
    assert LowerAscii(path)[|path| - |suffix|..] == suffix;
    assert |path| >= 2;
  }

  /** The redirect target is itself public, so a redirect never loops. */
  lemma LoginPageAlwaysPasses(cookies: map<string, string>)
    ensures Decide(LoginPath, cookies) == Pass
  {
    ListedPathsArePublic(0, "");
  }
}
