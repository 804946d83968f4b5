// The frontend middleware: a request for a dashboard page without an API
// token cookie is sent back to the sign-in page.
module DashboardGuard {
  import opened Wrappers
  import opened Text

  const DashboardPrefix: string := "/dashboard"
  const SignInPath: string := "/"
  const ReasonParam: string := "reason"
  const ReasonAuth: string := "auth"

  /** The parts of `request.nextUrl` the middleware touches or keeps. */
  datatype Url = Url(origin: string, pathname: string, params: seq<(string, string)>, hash: string)

  datatype Response = Next | Redirect(location: Url)

  /** `config.matcher` `/dashboard/:path*`: the dashboard root and every
      path below it. */
  predicate Matched(pathname: string)
  {
    pathname == DashboardPrefix || HasPrefix(pathname, DashboardPrefix + "/")
  }

  /** The pairs of `params` whose key is not `key`, in order. */
  function WithoutKey(params: seq<(string, string)>, key: string): (r: seq<(string, string)>)
    ensures forall p :: p in r <==> p in params && p.0 != key
  {
    if |params| == 0 then []
    else
      var rest := WithoutKey(params[1..], key);
      if params[0].0 == key then rest else [params[0]] + rest
  }

  /** `URLSearchParams.set`: the first pair with the key takes the value and
      the later ones go; without one, the pair is appended. */
  function SetParam(params: seq<(string, string)>, key: string, value: string): (r: seq<(string, string)>)
  {
    if |params| == 0 then [(key, value)]
    else if params[0].0 == key then [(key, value)] + WithoutKey(params[1..], key)
    else [params[0]] + SetParam(params[1..], key, value)
  }

  /** After `set` the key occurs once, with the new value, and every other
      pair is kept. */
  lemma {:induction false} SetParamCorrect(params: seq<(string, string)>, key: string, value: string)
    ensures (key, value) in SetParam(params, key, value)
    ensures forall i, j :: 0 <= i < j < |SetParam(params, key, value)| ==>
      SetParam(params, key, value)[i].0 != key || SetParam(params, key, value)[j].0 != key
    ensures forall p: (string, string) :: p.0 != key ==> (p in SetParam(params, key, value) <==> p in params)
    decreases |params|
  {
    var r := SetParam(params, key, value);
    if |params| > 0 && params[0].0 == key {
      var rest := WithoutKey(params[1..], key);
      forall i | 0 < i < |r| ensures r[i].0 != key {
        assert r[i] == rest[i - 1] && rest[i - 1] in rest;
      }
    } else if |params| > 0 {
      var rest := SetParam(params[1..], key, value);
      SetParamCorrect(params[1..], key, value);
      forall i, j | 0 <= i < j < |r| ensures r[i].0 != key || r[j].0 != key {
        if i > 0 {
          assert r[i] == rest[i - 1] && r[j] == rest[j - 1];
        }
      }
    }
  }

  /** `middleware`: a missing or empty token on a dashboard path redirects
      to the sign-in page with `reason=auth`, keeping the rest of the URL. */
  function Guard(token: Option<string>, url: Url): (r: Response)
    ensures r.Redirect? <==> (token.None? || token.value == "") && HasPrefix(url.pathname, DashboardPrefix)
    ensures r.Redirect? ==>
      r.location.origin == url.origin && r.location.hash == url.hash && r.location.pathname == SignInPath
  {
    if (token.None? || token.value == "") && HasPrefix(url.pathname, DashboardPrefix) then
      Redirect(url.(pathname := SignInPath, params := SetParam(url.params, ReasonParam, ReasonAuth)))
    else Next
  }

  /** The sign-in page a redirect leads to is not itself guarded, so the
      redirect cannot loop; and the reason says why. */
  lemma RedirectSettles(token: Option<string>, url: Url)
    requires Guard(token, url).Redirect?
    ensures !Matched(Guard(token, url).location.pathname)
    ensures Guard(None, Guard(token, url).location) == Next
    ensures (ReasonParam, ReasonAuth) in Guard(token, url).location.params
  {
    SetParamCorrect(url.params, ReasonParam, ReasonAuth);
  }

  /** On every path the middleware runs on, it redirects exactly when the
      token is missing or empty. */
  lemma {:induction false} MatchedPathsNeedToken(token: Option<string>, url: Url)
    requires Matched(url.pathname)
    ensures Guard(token, url).Redirect? <==> token.None? || token.value == ""
  {
    if url.pathname != DashboardPrefix {
      assert url.pathname[..|DashboardPrefix|] == (DashboardPrefix + "/")[..|DashboardPrefix|];
    }
  }
}
