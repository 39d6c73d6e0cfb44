/** Request templates and the normalisation `Validate` performs before a request is sent. */
module Request {
  import opened Wrappers
  import opened Text

  /** The fields of a request that reach its YAML form (the cookie jar and the computed
      timeout are not serialised). */
  datatype RequestData = RequestData(
    templateHash: string,
    url: string,
    httpMethod: string,
    headers: map<string, string>,
    cookies: map<string, string>,
    auth: string,
    authType: string,
    authHeaderName: string,
    userAgent: string,
    body: string,
    timeoutSeconds: real,
    bodyVars: map<string, string>,
    sslVerify: Option<bool>,
    caCertPath: string)

  datatype RequestError = InvalidURL(url: string) | InvalidMethod(httpMethod: string)

  /** A cookie as stored in the jar: keyed by domain, path and name. */
  datatype CookieKey = CookieKey(domain: string, path: string, name: string)
  type CookieJar = map<CookieKey, string>

  /** url.ParseRequestURI, reduced to what the request uses of it: the host on success. */
  type UriParser = string -> Option<string>

  const ValidMethods: set<string> := {"GET", "POST", "PUT", "DELETE", "PATCH", "HEAD", "OPTIONS"}
  const DefaultUserAgent := "ReqCorder"
  const DefaultTimeoutSeconds: real := 30.0
  const NanosPerSecond := 1000000000

  function NormalizeMethod(m: string): string {
    TrimSpace(ToUpper(m))
  }

  /** time.Duration(seconds) * time.Second for a positive number of seconds, in
      nanoseconds: the conversion truncates the seconds to a whole number first. */
  function TimeoutNanos(seconds: real): (ns: int)
    requires seconds > 0.0
    ensures ns % NanosPerSecond == 0
    ensures (ns / NanosPerSecond) as real <= seconds < (ns / NanosPerSecond + 1) as real
  {
    seconds.Floor * NanosPerSecond
  }

  /** The error processBasics reports, if any: the URL is checked before the method. */
  function BasicsError(url: string, httpMethod: string, parse: UriParser): Option<RequestError> {
    if parse(url).None? then Some(InvalidURL(url))
    else if NormalizeMethod(httpMethod) !in ValidMethods then Some(InvalidMethod(httpMethod))
    else None
  }

  lemma UrlCheckedFirst(url: string, httpMethod: string, parse: UriParser)
    requires parse(url).None?
    ensures BasicsError(url, httpMethod, parse) == Some(InvalidURL(url))
  {
  }

  /** A method accepted by processBasics is stored in its normalised form, which is one of
      the seven valid methods and is left alone by normalising it again. */
  lemma NormalizedMethodStable(httpMethod: string)
    requires NormalizeMethod(httpMethod) in ValidMethods
    ensures NormalizeMethod(NormalizeMethod(httpMethod)) == NormalizeMethod(httpMethod)
  {
    var m := NormalizeMethod(httpMethod);
    assert m == "GET" || m == "POST" || m == "PUT" || m == "DELETE" || m == "PATCH" || m == "HEAD" || m == "OPTIONS";
  }

  // ---------------------------------------------------------------------------
  // Body variables: every `{{key}}` is replaced, one key at a time

  function Placeholder(key: string): string {
    "{{" + key + "}}"
  }

  /** `keys` enumerates the keys of `vars` once each, in the order the loop visits them. */
  predicate Enumerates(keys: seq<string>, vars: map<string, string>) {
    (forall i, j :: 0 <= i < j < |keys| ==> keys[i] != keys[j])
    && (forall i :: 0 <= i < |keys| ==> keys[i] in vars)
    && (forall k :: k in vars ==> k in keys)
  }

  function SubstituteBodyVars(body: string, vars: map<string, string>, keys: seq<string>): string
    requires forall k :: k in keys ==> k in vars
    decreases |keys|
  {
    if keys == [] then body
    else SubstituteBodyVars(ReplaceAll(body, Placeholder(keys[0]), vars[keys[0]]), vars, keys[1..])
  }

  /** A body without any known placeholder comes back unchanged. */
  lemma {:induction false} BodyVarsAbsent(body: string, vars: map<string, string>, keys: seq<string>)
    requires forall k :: k in keys ==> k in vars
    requires forall k :: k in keys ==> !Contains(body, Placeholder(k))
    ensures SubstituteBodyVars(body, vars, keys) == body
    decreases |keys|
  {
    if keys != [] {
      ReplaceAllAbsent(body, Placeholder(keys[0]), vars[keys[0]]);
      BodyVarsAbsent(body, vars, keys[1..]);
    }
  }

  /** `{{name}}` for a brace-free name that is not a key stays in place. */
  lemma UnknownPlaceholderKept(name: string, vars: map<string, string>, keys: seq<string>)
    requires forall k :: k in keys ==> k in vars
    requires name !in vars && '{' !in name && '}' !in name
    ensures SubstituteBodyVars(Placeholder(name), vars, keys) == Placeholder(name)
  {
    forall k | k in keys
      ensures !Contains(Placeholder(name), Placeholder(k))
    {
      PlaceholderOccurrence(name, k);
    }
    BodyVarsAbsent(Placeholder(name), vars, keys);
  }

  lemma PlaceholderOccurrence(name: string, k: string)
    requires k != name && '{' !in name && '}' !in name
    ensures !Contains(Placeholder(name), Placeholder(k))
  {
    var s := Placeholder(name);
    var p := Placeholder(k);
    forall i | 0 <= i <= |s|
      ensures !OccursAt(s, p, i)
    {
      if i + |p| <= |s| {
        var w := s[i..i + |p|];
        if i > 0 {
          assert w[1] == name[i - 1] && p[1] == '{';
        } else if |k| < |name| {
          assert w[|k| + 2] == name[|k|] && p[|k| + 2] == '}';
        } else {
          var j :| 0 <= j < |k| && k[j] != name[j];
          assert w[j + 2] == name[j] && p[j + 2] == k[j];
        }
      }
    }
  }

  predicate BraceFree(s: string) {
    '{' !in s && '}' !in s
  }

  /** A placeholder of a brace-free key cannot start before a text opening with "{{" and
      end inside it. */
  lemma PlaceholderNoEntry(a: string, m: string, j: string)
    requires BraceFree(j) && |m| >= 2 && m[0] == '{' && m[1] == '{'
    ensures NoStraddle(a + m, Placeholder(j), |a|)
  {
    var s := a + m;
    var p := Placeholder(j);
    forall i | 0 <= i < |a| < i + |p|
      ensures !OccursAt(s, p, i)
    {
      if i + |p| <= |s| {
        var w := s[i..i + |p|];
        var d := |a| - i;
        assert w[d] == m[0] == '{';
        if d >= 2 {
          if d < |j| + 2 { assert p[d] == j[d - 2]; } else { assert p[d] == '}'; }
          assert w[d] != p[d];
        } else {
          assert w[2] == m[1] == '{';
          if |j| > 0 { assert p[2] == j[0]; } else { assert p[2] == '}'; }
          assert w[2] != p[2];
        }
      }
    }
  }

  /** A placeholder of a brace-free key cannot start inside another placeholder and end
      after it. */
  lemma PlaceholderNoExit(k: string, b: string, j: string)
    requires BraceFree(k) && BraceFree(j)
    ensures NoStraddle(Placeholder(k) + b, Placeholder(j), |Placeholder(k)|)
  {
    var q := Placeholder(k);
    var s := q + b;
    var p := Placeholder(j);
    forall i | 0 <= i < |q| < i + |p|
      ensures !OccursAt(s, p, i)
    {
      if i + |p| <= |s| {
        var w := s[i..i + |p|];
        assert w[0] == q[i] && w[1] == s[i + 1];
        if i >= 2 {
          if i < |k| + 2 { assert q[i] == k[i - 2]; } else { assert q[i] == '}'; }
          assert w[0] != p[0];
        } else if i == 1 {
          if |k| > 0 { assert s[2] == k[0]; } else { assert s[2] == '}'; }
          assert w[1] != p[1];
        } else {
          assert w[|k| + 2] == q[|k| + 2] == '}' && p[|k| + 2] == j[|k|];
          assert w[|k| + 2] != p[|k| + 2];
        }
      }
    }
  }

  /** One ReplaceAll pass of key `j` over a text holding the placeholder of `k`: the text
      on either side is processed as it stands, and the placeholder becomes the value
      exactly when `j` is `k`. */
  lemma ReplaceAround(a: string, k: string, b: string, j: string, v: string)
    requires BraceFree(k) && BraceFree(j)
    ensures ReplaceAll(a + Placeholder(k) + b, Placeholder(j), v)
         == ReplaceAll(a, Placeholder(j), v) + (if j == k then v else Placeholder(k)) + ReplaceAll(b, Placeholder(j), v)
  {
    var q := Placeholder(k);
    var p := Placeholder(j);
    assert a + q + b == a + (q + b);
    PlaceholderNoEntry(a, q + b, j);
    ReplaceAllConcat(a, q + b, p, v);
    PlaceholderNoExit(k, b, j);
    ReplaceAllConcat(q, b, p, v);
    if j == k {
      assert q[..|p|] == p && q[|p|..] == [];
    } else {
      PlaceholderOccurrence(k, j);
      ReplaceAllAbsent(q, p, v);
    }
  }

  /** A placeholder whose name is not among the keys survives in any body, and the text
      on either side of it is processed as if it stood alone. */
  lemma {:induction false} UnknownPlaceholderSurvives(a: string, k: string, b: string, vars: map<string, string>, keys: seq<string>)
    requires forall key :: key in keys ==> key in vars && BraceFree(key)
    requires BraceFree(k) && k !in keys
    ensures SubstituteBodyVars(a + Placeholder(k) + b, vars, keys)
         == SubstituteBodyVars(a, vars, keys) + Placeholder(k) + SubstituteBodyVars(b, vars, keys)
    decreases |keys|
  {
    if keys != [] {
      var j := keys[0];
      ReplaceAround(a, k, b, j, vars[j]);
      var a' := ReplaceAll(a, Placeholder(j), vars[j]);
      var b' := ReplaceAll(b, Placeholder(j), vars[j]);
      UnknownPlaceholderSurvives(a', k, b', vars, keys[1..]);
    }
  }

  /** Substituting over a sequence of keys is substituting over a prefix, then the rest. */
  lemma {:induction false} SubstituteSplit(s: string, vars: map<string, string>, keys: seq<string>, n: nat)
    requires forall k :: k in keys ==> k in vars
    requires n <= |keys|
    ensures SubstituteBodyVars(s, vars, keys) == SubstituteBodyVars(SubstituteBodyVars(s, vars, keys[..n]), vars, keys[n..])
    decreases n
  {
    if n == 0 {
      assert keys[0..] == keys;
    } else {
      var s' := ReplaceAll(s, Placeholder(keys[0]), vars[keys[0]]);
      SubstituteSplit(s', vars, keys[1..], n - 1);
      assert keys[1..][..n - 1] == keys[..n][1..];
      assert keys[1..][n - 1..] == keys[n..];
    }
  }

  /** The placeholder of a key survives until the loop reaches that key; then it becomes
      the key's value, together with every other occurrence of it, and the keys after
      it act on the result. */
  lemma KnownPlaceholderReplaced(a: string, k: string, b: string, vars: map<string, string>, keys: seq<string>, n: nat)
    requires forall key :: key in keys ==> key in vars && BraceFree(key)
    requires n < |keys| && keys[n] == k && k !in keys[..n]
    ensures var x := SubstituteBodyVars(a, vars, keys[..n]);
      var y := SubstituteBodyVars(b, vars, keys[..n]);
      SubstituteBodyVars(a + Placeholder(k) + b, vars, keys)
        == SubstituteBodyVars(ReplaceAll(x, Placeholder(k), vars[k]) + vars[k] + ReplaceAll(y, Placeholder(k), vars[k]), vars, keys[n + 1..])
  {
    SubstituteSplit(a + Placeholder(k) + b, vars, keys, n);
    UnknownPlaceholderSurvives(a, k, b, vars, keys[..n]);
    var x := SubstituteBodyVars(a, vars, keys[..n]);
    var y := SubstituteBodyVars(b, vars, keys[..n]);
    assert keys[n..][0] == k && keys[n..][1..] == keys[n + 1..];
    ReplaceAround(x, k, y, k, vars[k]);
  }

  lemma BraceFreeNoPlaceholder(a: string, j: string)
    requires BraceFree(a)
    ensures !Contains(a, Placeholder(j))
  {
    forall i | 0 <= i <= |a|
      ensures !OccursAt(a, Placeholder(j), i)
    {
      if i + |Placeholder(j)| <= |a| {
        assert a[i..i + |Placeholder(j)|][0] == a[i] != '{';
      }
    }
  }

  /** Between brace-free texts, a placeholder can only occur inside the middle part. */
  lemma PlaceholderWithin(a: string, v: string, b: string, j: string)
    requires BraceFree(a) && BraceFree(b) && !Contains(v, Placeholder(j))
    ensures !Contains(a + v + b, Placeholder(j))
  {
    var s := a + v + b;
    var p := Placeholder(j);
    forall i | 0 <= i <= |s|
      ensures !OccursAt(s, p, i)
    {
      if i + |p| <= |s| {
        var w := s[i..i + |p|];
        var e := i + |p| - 1;
        assert w[0] == s[i] && w[|p| - 1] == s[e];
        if i < |a| {
          assert s[i] == a[i] != '{';
          assert w[0] != p[0];
        } else if e >= |a| + |v| {
          assert s[e] == b[e - |a| - |v|] != '}';
          assert w[|p| - 1] != p[|p| - 1];
        } else {
          assert v[i - |a|..i - |a| + |p|] == w;
          assert !OccursAt(v, p, i - |a|);
        }
      }
    }
  }

  /** A placeholder between brace-free texts is replaced by its key's value, when that
      value holds no placeholder of another key. */
  lemma LonePlaceholderReplaced(a: string, k: string, b: string, vars: map<string, string>, keys: seq<string>)
    requires Enumerates(keys, vars) && forall key :: key in keys ==> BraceFree(key)
    requires k in vars && BraceFree(a) && BraceFree(b)
    requires forall j :: j in vars && j != k ==> !Contains(vars[k], Placeholder(j))
    ensures SubstituteBodyVars(a + Placeholder(k) + b, vars, keys) == a + vars[k] + b
  {
    var n :| 0 <= n < |keys| && keys[n] == k;
    assert k !in keys[..n];
    var v := vars[k];
    KnownPlaceholderReplaced(a, k, b, vars, keys, n);
    forall j | j in keys[..n]
      ensures !Contains(a, Placeholder(j)) && !Contains(b, Placeholder(j))
    {
      BraceFreeNoPlaceholder(a, j);
      BraceFreeNoPlaceholder(b, j);
    }
    BodyVarsAbsent(a, vars, keys[..n]);
    BodyVarsAbsent(b, vars, keys[..n]);
    BraceFreeNoPlaceholder(a, k);
    BraceFreeNoPlaceholder(b, k);
    ReplaceAllAbsent(a, Placeholder(k), v);
    ReplaceAllAbsent(b, Placeholder(k), v);
    forall j | j in keys[n + 1..]
      ensures !Contains(a + v + b, Placeholder(j))
    {
      var t :| n + 1 <= t < |keys| && keys[t] == j;
      assert j != k;
      PlaceholderWithin(a, v, b, j);
    }
    BodyVarsAbsent(a + v + b, vars, keys[n + 1..]);
  }

  // ---------------------------------------------------------------------------
  // Environment placeholders `{{env:NAME}}` with NAME matching [A-Z_][A-Z0-9_]+

  const EnvOpen := "{{env:"
  const EnvClose := "}}"

  predicate IsNameStart(c: char) {
    'A' <= c <= 'Z' || c == '_'
  }

  predicate IsNameChar(c: char) {
    IsNameStart(c) || '0' <= c <= '9'
  }

  predicate IsEnvName(n: string) {
    |n| >= 2 && IsNameStart(n[0]) && forall i :: 0 <= i < |n| ==> IsNameChar(n[i])
  }

  /** os.Getenv: the empty string for an unset variable. */
  function Getenv(env: map<string, string>, name: string): string {
    if name in env then env[name] else ""
  }

  /** Length of the longest prefix of `s` made of name characters. */
  function NameRun(s: string): (n: nat)
    ensures n <= |s|
    ensures forall i :: 0 <= i < n ==> IsNameChar(s[i])
    ensures n < |s| ==> !IsNameChar(s[n])
    decreases |s|
  {
    if s != [] && IsNameChar(s[0]) then 1 + NameRun(s[1..]) else 0
  }

  /** The regular expression's leftmost-first replacement, scanned position by position:
      a placeholder is recognised at the first position where one starts. */
  function SubstituteEnv(s: string, env: map<string, string>): string
    decreases |s|
  {
    if s == [] then []
    else if HasPrefix(s, EnvOpen) then
      var rest := s[|EnvOpen|..];
      var n := NameRun(rest);
      if n >= 2 && IsNameStart(rest[0]) && HasPrefix(rest[n..], EnvClose) then
        Getenv(env, rest[..n]) + SubstituteEnv(rest[n + |EnvClose|..], env)
      else [s[0]] + SubstituteEnv(s[1..], env)
    else [s[0]] + SubstituteEnv(s[1..], env)
  }

  lemma {:induction false} EnvPlainPrefix(x: string, s: string, env: map<string, string>)
    requires '{' !in x
    ensures SubstituteEnv(x + s, env) == x + SubstituteEnv(s, env)
    decreases |x|
  {
    if x != [] {
      assert (x + s)[0] == x[0] && x[0] != EnvOpen[0];
      assert !HasPrefix(x + s, EnvOpen) by {
        if |x + s| >= |EnvOpen| {
          assert (x + s)[..|EnvOpen|][0] == x[0];
        }
      }
      assert SubstituteEnv(x + s, env) == [x[0]] + SubstituteEnv((x + s)[1..], env);
      assert (x + s)[1..] == x[1..] + s;
      assert '{' !in x[1..];
      EnvPlainPrefix(x[1..], s, env);
      calc {
        SubstituteEnv(x + s, env);
        [x[0]] + SubstituteEnv(x[1..] + s, env);
        [x[0]] + (x[1..] + SubstituteEnv(s, env));
        { assert x == [x[0]] + x[1..]; }
        x + SubstituteEnv(s, env);
      }
    } else {
      assert x + s == s;
    }
  }

  /** Text without a brace is left unchanged. */
  lemma EnvNoBrace(s: string, env: map<string, string>)
    requires '{' !in s
    ensures SubstituteEnv(s, env) == s
  {
    EnvPlainPrefix(s, [], env);
    assert s + [] == s;
  }

  /** A well-formed placeholder is replaced by the variable's value, or removed when the
      variable is unset. */
  lemma EnvPlaceholder(name: string, rest: string, env: map<string, string>)
    requires IsEnvName(name)
    ensures SubstituteEnv(EnvOpen + name + EnvClose + rest, env) == Getenv(env, name) + SubstituteEnv(rest, env)
  {
    var tail := EnvClose + rest;
    var r := name + tail;
    var s := EnvOpen + r;
    assert EnvOpen + name + EnvClose + rest == s;
    assert s[..|EnvOpen|] == EnvOpen && s[|EnvOpen|..] == r;
    NameRunOf(name, tail);
    assert r[..|name|] == name && r[|name|..] == tail && IsNameStart(r[0]);
    assert tail[..|EnvClose|] == EnvClose && tail[|EnvClose|..] == rest;
    assert r[|name| + |EnvClose|..] == rest;
  }

  lemma {:induction false} NameRunOf(name: string, t: string)
    requires forall i :: 0 <= i < |name| ==> IsNameChar(name[i])
    requires t != [] && !IsNameChar(t[0])
    ensures NameRun(name + t) == |name|
    decreases |name|
  {
    if name != [] {
      assert (name + t)[1..] == name[1..] + t;
      NameRunOf(name[1..], t);
    }
  }

  /** The text after the first brace of a one-character placeholder is kept. */
  lemma ShortTailKept(c: char, env: map<string, string>)
    requires IsNameChar(c)
    ensures SubstituteEnv("{env:" + [c] + "}}", env) == "{env:" + [c] + "}}"
  {
    var t := "{env:" + [c] + "}}";
    assert t[1] == 'e' && EnvOpen[1] == '{';
    assert !HasPrefix(t, EnvOpen);
    var u := t[1..];
    assert u == "env:" + [c] + "}}";
    EnvNoBrace(u, env);
    assert t == [t[0]] + u;
  }

  /** A one-character name does not match the pattern, so the text stays as it is. */
  lemma EnvShortNameKept(c: char, env: map<string, string>)
    requires IsNameChar(c)
    ensures SubstituteEnv(EnvOpen + [c] + EnvClose, env) == EnvOpen + [c] + EnvClose
  {
    var s := EnvOpen + [c] + EnvClose;
    var rest := s[|EnvOpen|..];
    assert rest == [c] + EnvClose;
    assert NameRun(rest) == 1;
    assert SubstituteEnv(s, env) == [s[0]] + SubstituteEnv(s[1..], env);
    assert s[1..] == "{env:" + [c] + "}}";
    ShortTailKept(c, env);
    assert s == [s[0]] + s[1..];
  }

  // ---------------------------------------------------------------------------
  // Authorization prefixes

  function PrefixAuth(auth: string, authType: string): string {
    if auth == "" then auth
    else
      var withBearer :=
        if ToLower(authType) == "bearer" && !HasPrefix(auth, "bearer") && !HasPrefix(auth, "Bearer")
        then "Bearer " + auth else auth;
      if ToLower(authType) == "basic" && !HasPrefix(withBearer, "basic") && !HasPrefix(withBearer, "Basic")
      then "Basic " + withBearer else withBearer
  }

  lemma PrefixOfAppend(p: string, q: string, s: string)
    requires HasPrefix(q, p)
    ensures HasPrefix(q + s, p)
  {
    assert (q + s)[..|p|] == q[..|p|];
  }

  /** Applying the prefix rules twice gives the same value as applying them once. */
  lemma PrefixAuthIdempotent(auth: string, authType: string)
    ensures PrefixAuth(PrefixAuth(auth, authType), authType) == PrefixAuth(auth, authType)
  {
    if auth != "" {
      PrefixOfAppend("Bearer", "Bearer ", auth);
      PrefixOfAppend("Basic", "Basic ", auth);
    }
  }

  /** A bearer or basic value ends up starting with its scheme name and still ends with
      the configured value; any other type leaves the value unchanged. */
  lemma PrefixAuthShape(auth: string, authType: string)
    requires auth != ""
    ensures var r := PrefixAuth(auth, authType);
      && HasSuffix(r, auth)
      && (ToLower(authType) == "bearer" ==> HasPrefix(r, "Bearer") || HasPrefix(r, "bearer"))
      && (ToLower(authType) == "basic" ==> HasPrefix(r, "Basic") || HasPrefix(r, "basic"))
      && (ToLower(authType) != "bearer" && ToLower(authType) != "basic" ==> r == auth)
  {
    PrefixOfAppend("Bearer", "Bearer ", auth);
    PrefixOfAppend("Basic", "Basic ", auth);
    var r := PrefixAuth(auth, authType);
    assert r == auth || r == "Bearer " + auth || r == "Basic " + auth;
    assert ("Bearer " + auth)[|"Bearer " + auth| - |auth|..] == auth;
    assert ("Basic " + auth)[|"Basic " + auth| - |auth|..] == auth;
  }

  // ---------------------------------------------------------------------------
  // The mutable request object

  class RequestObject {
    var templateHash: string
    var url: string
    var httpMethod: string
    var headers: map<string, string>
    var cookies: map<string, string>
    var cookieJar: Option<CookieJar>
    var auth: string
    var authType: string
    var authHeaderName: string
    var userAgent: string
    var body: string
    var timeout: int
    var timeoutSeconds: real
    var bodyVars: map<string, string>
    var sslVerify: Option<bool>
    var caCertPath: string

    /** The serialisable view of the object. */
    function Data(): RequestData
      reads this
    {
      RequestData(templateHash, url, httpMethod, headers, cookies, auth, authType, authHeaderName,
                  userAgent, body, timeoutSeconds, bodyVars, sslVerify, caCertPath)
    }

    /** Stamp the request with the hash of its template. */
    method SetTemplateHash(h: string)
      modifies this`templateHash
      ensures Data() == old(Data()).(templateHash := h)
    {
      templateHash := h;
    }

    /** A request as decoded from YAML: no jar and no computed timeout yet. */
    constructor FromData(d: RequestData)
      ensures Data() == d && cookieJar == None && timeout == 0
    {
      templateHash := d.templateHash;
      url := d.url;
      httpMethod := d.httpMethod;
      headers := d.headers;
      cookies := d.cookies;
      cookieJar := None;
      auth := d.auth;
      authType := d.authType;
      authHeaderName := d.authHeaderName;
      userAgent := d.userAgent;
      body := d.body;
      timeout := 0;
      timeoutSeconds := d.timeoutSeconds;
      bodyVars := d.bodyVars;
      sslVerify := d.sslVerify;
      caCertPath := d.caCertPath;
    }

    method ProcessBasics(parse: UriParser) returns (err: Option<RequestError>)
      modifies this`httpMethod, this`timeout, this`timeoutSeconds, this`userAgent, this`sslVerify
      ensures err == BasicsError(old(url), old(httpMethod), parse)
      ensures err.Some? ==> Data() == old(Data()) && timeout == old(timeout)
      ensures err.None? ==>
        && httpMethod == NormalizeMethod(old(httpMethod)) && httpMethod in ValidMethods
        && (old(timeoutSeconds) > 0.0 ==> timeoutSeconds == old(timeoutSeconds) && timeout == TimeoutNanos(old(timeoutSeconds)))
        && (old(timeoutSeconds) <= 0.0 ==> timeoutSeconds == DefaultTimeoutSeconds && timeout == 30 * NanosPerSecond)
        && userAgent == (if old(userAgent) == "" then DefaultUserAgent else old(userAgent))
        && sslVerify == (if old(sslVerify).None? then Some(true) else old(sslVerify))
        && Data() == old(Data()).(httpMethod := httpMethod, timeoutSeconds := timeoutSeconds,
                                  userAgent := userAgent, sslVerify := sslVerify)
      ensures cookieJar == old(cookieJar)
    {
      if parse(url).None? {
        return Some(InvalidURL(url));
      }
      var cleaned := TrimSpace(ToUpper(httpMethod));
      if cleaned !in ValidMethods {
        return Some(InvalidMethod(httpMethod));
      }
      ApplyDefaults(cleaned);
      return None;
    }

    /** The second half of processBasics, once URL and method are accepted: store the
        cleaned method and fill in the timeout, user agent and TLS verification. */
    method ApplyDefaults(cleaned: string)
      modifies this`httpMethod, this`timeout, this`timeoutSeconds, this`userAgent, this`sslVerify
      ensures httpMethod == cleaned
      ensures old(timeoutSeconds) > 0.0 ==> timeoutSeconds == old(timeoutSeconds) && timeout == TimeoutNanos(old(timeoutSeconds))
      ensures old(timeoutSeconds) <= 0.0 ==> timeoutSeconds == DefaultTimeoutSeconds && timeout == 30 * NanosPerSecond
      ensures userAgent == (if old(userAgent) == "" then DefaultUserAgent else old(userAgent))
      ensures sslVerify == (if old(sslVerify).None? then Some(true) else old(sslVerify))
      ensures Data() == old(Data()).(httpMethod := httpMethod, timeoutSeconds := timeoutSeconds,
                                     userAgent := userAgent, sslVerify := sslVerify)
    {
      httpMethod := cleaned;
      if timeoutSeconds > 0.0 {
        timeout := timeoutSeconds.Floor * NanosPerSecond;
      } else {
        timeoutSeconds := DefaultTimeoutSeconds;
        timeout := 30 * NanosPerSecond;
      }
      if userAgent == "" {
        userAgent := DefaultUserAgent;
      }
      if sslVerify.None? {
        sslVerify := Some(true);
      }
    }

    method ProcessBodyVars(keys: seq<string>)
      requires Enumerates(keys, bodyVars)
      modifies this
      ensures Data() == old(Data()).(body := body)
      ensures body == (if old(body) == "" then old(body) else SubstituteBodyVars(old(body), old(bodyVars), keys))
      ensures cookieJar == old(cookieJar) && timeout == old(timeout)
    {
      if body == "" {
        return;
      }
      var b := body;
      var i := 0;
      while i < |keys|
        invariant 0 <= i <= |keys|
        invariant SubstituteBodyVars(b, bodyVars, keys[i..]) == SubstituteBodyVars(body, bodyVars, keys)
      {
        assert keys[i..][1..] == keys[i + 1..];
        b := ReplaceAll(b, Placeholder(keys[i]), bodyVars[keys[i]]);
        i := i + 1;
      }
      body := b;
    }

    method ProcessEnvVars(env: map<string, string>)
      modifies this
      ensures body == SubstituteEnv(old(body), env)
      ensures Data() == old(Data()).(body := body)
      ensures cookieJar == old(cookieJar) && timeout == old(timeout)
    {
      body := SubstituteEnv(body, env);
    }

    method ProcessAuth()
      modifies this
      ensures auth == PrefixAuth(old(auth), old(authType))
      ensures Data() == old(Data()).(auth := auth)
      ensures cookieJar == old(cookieJar) && timeout == old(timeout)
    {
      if auth == "" {
        return;
      }
      if ToLower(authType) == "bearer" && !HasPrefix(auth, "bearer") && !HasPrefix(auth, "Bearer") {
        auth := "Bearer " + auth;
      }
      if ToLower(authType) == "basic" && !HasPrefix(auth, "basic") && !HasPrefix(auth, "Basic") {
        auth := "Basic " + auth;
      }
    }

    /** Creates the jar when there is none, then files every configured cookie under the
        request's host and path "/"; an unparsable URL is reported only when there are
        cookies to file. */
    method ProcessCookies(parse: UriParser) returns (err: Option<RequestError>)
      modifies this
      ensures Data() == old(Data()) && timeout == old(timeout)
      ensures cookieJar.Some?
      ensures err.Some? <==> |old(cookies)| > 0 && parse(old(url)).None?
      ensures err.Some? ==> err == Some(InvalidURL(old(url)))
      ensures var jar := if old(cookieJar).Some? then old(cookieJar).value else map[];
        cookieJar.value == (if |cookies| == 0 || parse(url).None? then jar
                            else jar + CookiesFor(parse(url).value, cookies))
    {
      if cookieJar.None? {
        cookieJar := Some(map[]);
      }
      if |cookies| == 0 {
        return None;
      }
      var host := parse(url);
      if host.None? {
        return Some(InvalidURL(url));
      }
      cookieJar := Some(cookieJar.value + CookiesFor(host.value, cookies));
      return None;
    }

    /** processBasics, then body variables, environment variables, auth prefixes and the
        cookie jar; a basics error is returned before any field changes. */
    method Validate(parse: UriParser, keys: seq<string>, env: map<string, string>) returns (err: Option<RequestError>)
      requires Enumerates(keys, bodyVars)
      modifies this
      ensures err == BasicsError(old(url), old(httpMethod), parse)
      ensures err.Some? ==> Data() == old(Data()) && cookieJar == old(cookieJar) && timeout == old(timeout)
      ensures err.None? ==>
        && httpMethod == NormalizeMethod(old(httpMethod)) && httpMethod in ValidMethods
        && userAgent == (if old(userAgent) == "" then DefaultUserAgent else old(userAgent))
        && sslVerify == (if old(sslVerify).None? then Some(true) else old(sslVerify))
        && (old(timeoutSeconds) > 0.0 ==> timeoutSeconds == old(timeoutSeconds) && timeout == TimeoutNanos(old(timeoutSeconds)))
        && (old(timeoutSeconds) <= 0.0 ==> timeoutSeconds == DefaultTimeoutSeconds && timeout == 30 * NanosPerSecond)
        && body == SubstituteEnv(if old(body) == "" then old(body) else SubstituteBodyVars(old(body), old(bodyVars), keys), env)
        && auth == PrefixAuth(old(auth), old(authType))
        && cookieJar.Some?
        && Data() == old(Data()).(httpMethod := httpMethod, userAgent := userAgent, sslVerify := sslVerify,
                                  timeoutSeconds := timeoutSeconds, body := body, auth := auth)
    {
      err := ProcessBasics(parse);
      if err.Some? {
        return;
      }
      ProcessBodyVars(keys);
      ProcessEnvVars(env);
      ProcessAuth();
      var cookieErr := ProcessCookies(parse);
      // The URL passed the same check in ProcessBasics, so this error cannot arise.
      assert cookieErr.None?;
    }
  }

  function CookiesFor(host: string, cookies: map<string, string>): CookieJar {
    map name | name in cookies :: CookieKey(host, "/", name) := cookies[name]
  }
}
