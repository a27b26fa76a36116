/**
 * The design-URL parser (`parseFigmaUrl` in backend/src/utils/figmaUrl.ts).
 *
 * The `URL` constructor is not modelled: its outcome is the input, `None`
 * when it throws and otherwise the pathname and the raw `node-id` query value
 * it yields. The path pattern `/(file|design)/([A-Za-z0-9]+)/` is written out
 * as a leftmost scan.
 */
module FigmaUrl {
  import opened Wrappers
  import opened Strings
  import opened Figma
  import opened Scan

  /** What the `URL` constructor yields: the pathname and `searchParams.get("node-id")`. */
  datatype UrlParts = UrlParts(pathname: string, nodeParam: Option<string>)

  datatype UrlError = InvalidUrl | NoFileKey {
    /** The message of the error thrown. */
    function Message(): string {
      match this
      case InvalidUrl => "URL Figma invalide"
      case NoFileKey => "Impossible d'extraire fileKey depuis l'URL"
    }
  }

  // ---------------------------------------------------------------- the path pattern

  /** The length of the longest run of `[A-Za-z0-9]` in `s` from `i` on. */
  function AlnumRun(s: string, i: nat): (n: nat)
    requires i <= |s|
    ensures i + n <= |s|
    ensures forall k :: i <= k < i + n ==> IsAlnum(s[k])
    ensures i + n < |s| ==> !IsAlnum(s[i + n])
    decreases |s| - i
  {
    if i < |s| && IsAlnum(s[i]) then 1 + AlnumRun(s, i + 1) else 0
  }

  /** The length of the `/file/` or `/design/` alternative that starts at `i`, or 0. */
  function HeadLen(p: string, i: nat): (j: nat)
    ensures j == 0 || i + j <= |p|
  {
    if TextAt(p, i, "/file/") then 6
    else if TextAt(p, i, "/design/") then 8
    else 0
  }

  /** The key the pattern captures when its match starts at `i`, if it matches there. */
  function MatchAt(p: string, i: nat): Option<string> {
    var j := HeadLen(p, i);
    if j == 0 then None
    else
      var n := AlnumRun(p, i + j);
      if n > 0 && i + j + n < |p| && p[i + j + n] == '/' then Some(p[i + j..i + j + n]) else None
  }

  /** The leftmost match, as `String.prototype.match` finds it. */
  function FindKey(p: string): Option<string> {
    First(i => MatchAt(p, i), 0, |p|)
  }

  /** `nodeParam ? nodeParam.replace(/-/g, ":") : undefined`: a missing or empty value is falsy. */
  function NodeIdOf(param: Option<string>): (r: Option<string>)
    ensures r.None? <==> param.None? || param.value == ""
    ensures r.Some? ==> |r.value| == |param.value| && '-' !in r.value
    ensures r.Some? ==> forall i :: 0 <= i < |param.value| ==>
      r.value[i] == if param.value[i] == '-' then ':' else param.value[i]
  {
    if param.Some? && param.value != "" then
      ReplaceCharAt(param.value, '-', ':');
      Some(ReplaceChar(param.value, '-', ":"))
    else None
  }

  /** `parseFigmaUrl(raw)`, given what the `URL` constructor made of `raw`. */
  function ParseFigmaUrl(url: Option<UrlParts>): (r: Result<UrlData, UrlError>)
    ensures r == Err(InvalidUrl) <==> url.None?
    ensures r.Ok? ==> r.value.nodeId == NodeIdOf(url.value.nodeParam)
  {
    match url
    case None => Err(InvalidUrl)
    case Some(u) =>
      match FindKey(u.pathname)
      case None => Err(NoFileKey)
      case Some(key) => Ok(UrlData(key, NodeIdOf(u.nodeParam)))
  }

  // ---------------------------------------------------------------- properties

  /**
   * The pattern read declaratively: at `i` the path holds `/file/` or
   * `/design/`, then `key`, a non-empty run of letters and digits, then `/`.
   */
  predicate Matches(p: string, i: nat, key: string) {
    && key != []
    && (forall k :: 0 <= k < |key| ==> IsAlnum(key[k]))
    && (TextAt(p, i, "/file/" + key + "/") || TextAt(p, i, "/design/" + key + "/"))
  }

  lemma MatchAtSound(p: string, i: nat, key: string)
    requires MatchAt(p, i) == Some(key)
    ensures Matches(p, i, key)
  {
    var j := HeadLen(p, i);
    var head := if j == 6 then "/file/" else "/design/";
    var n := AlnumRun(p, i + j);
    assert key == p[i + j..i + j + n];
    forall k | 0 <= k < n
      ensures IsAlnum(key[k])
    {
      assert key[k] == p[i + j + k];
    }
    JoinHeadKeySlash(p, i, head, key);
  }

  /** The converse of `HeadKeySlash`: `head`, `key` and `/` in a row make an occurrence. */
  lemma JoinHeadKeySlash(p: string, i: nat, head: string, key: string)
    requires TextAt(p, i, head) && TextAt(p, i + |head|, key)
    requires i + |head| + |key| < |p| && p[i + |head| + |key|] == '/'
    ensures TextAt(p, i, head + key + "/")
  {
    var t := head + key + "/";
    forall k | 0 <= k < |t|
      ensures p[i..i + |t|][k] == t[k]
    {
      if k < |head| {
        assert p[i + k] == p[i..i + |head|][k];
      } else if k < |head| + |key| {
        assert p[i + k] == p[i + |head|..i + |head| + |key|][k - |head|];
      }
    }
  }

  /** The length of a run of letters and digits that a non-alphanumeric character ends. */
  lemma AlnumRunIs(s: string, i: nat, n: nat)
    requires i + n < |s| && !IsAlnum(s[i + n])
    requires forall k :: i <= k < i + n ==> IsAlnum(s[k])
    ensures AlnumRun(s, i) == n
  {
    var m := AlnumRun(s, i);
  }

  /** How the path reads where `head`, `key` and `/` occur in a row. */
  lemma HeadKeySlash(p: string, i: nat, head: string, key: string)
    requires TextAt(p, i, head + key + "/")
    ensures TextAt(p, i, head) && TextAt(p, i + |head|, key)
    ensures i + |head| + |key| < |p| && p[i + |head| + |key|] == '/'
  {
    var t := head + key + "/";
    var w := p[i..i + |t|];
    assert w == t;
    assert t[..|head|] == head;
    assert t[|head|..|head| + |key|] == key by {
      assert t == head + (key + "/");
      assert t[|head|..] == key + "/";
      assert t[|head|..|head| + |key|] == t[|head|..][..|key|];
    }
    assert p[i..i + |head|] == w[..|head|];
    assert p[i + |head|..i + |head| + |key|] == w[|head|..|head| + |key|];
    assert p[i + |head| + |key|] == w[|head| + |key|];
  }

  lemma MatchAtComplete(p: string, i: nat, key: string)
    requires Matches(p, i, key)
    ensures MatchAt(p, i) == Some(key)
  {
    var head := if TextAt(p, i, "/file/" + key + "/") then "/file/" else "/design/";
    HeadKeySlash(p, i, head, key);
    if head == "/design/" {
      assert p[i + 1] == p[i..i + |head|][1] == 'd';
    }
    assert HeadLen(p, i) == |head|;
    var j := i + |head|;
    forall k | j <= k < j + |key|
      ensures IsAlnum(p[k])
    {
      assert p[k] == key[k - j];
    }
    AlnumRunIs(p, j, |key|);
  }

  /** The scan captures a key at `i` exactly when the declarative pattern matches there, with that key. */
  lemma MatchAtIff(p: string, i: nat, key: string)
    ensures MatchAt(p, i) == Some(key) <==> Matches(p, i, key)
  {
    if MatchAt(p, i) == Some(key) {
      MatchAtSound(p, i, key);
    }
    if Matches(p, i, key) {
      MatchAtComplete(p, i, key);
    }
  }

  /** The file-key error is raised exactly when no position of the path matches the pattern. */
  lemma NoKeyIff(u: UrlParts)
    ensures ParseFigmaUrl(Some(u)) == Err(NoFileKey)
            <==> forall i: nat, key :: i <= |u.pathname| ==> !Matches(u.pathname, i, key)
  {
    var p := u.pathname;
    var f := i => MatchAt(p, i);
    FirstNone(f, 0, |p|);
    if ParseFigmaUrl(Some(u)) == Err(NoFileKey) {
      forall i: nat, key | i <= |p|
        ensures !Matches(p, i, key)
      {
        assert f(i).None?;
        MatchAtIff(p, i, key);
      }
    } else {
      var i := FirstAt(f, 0, |p|);
      MatchAtIff(p, i, FindKey(p).value);
    }
  }

  /**
   * On success the key is a non-empty run of letters and digits, the pattern
   * matches with it at some position of the path, and at no earlier one.
   */
  lemma KeyIsLeftmostMatch(u: UrlParts)
    requires ParseFigmaUrl(Some(u)).Ok?
    ensures var key := ParseFigmaUrl(Some(u)).value.fileKey;
      && key != [] && (forall k :: 0 <= k < |key| ==> IsAlnum(key[k]))
      && (exists i: nat :: i <= |u.pathname| && Matches(u.pathname, i, key)
                          && (forall j: nat, other :: j < i ==> !Matches(u.pathname, j, other)))
  {
    var p := u.pathname;
    var f := i => MatchAt(p, i);
    var i := FirstAt(f, 0, |p|);
    var key := FindKey(p).value;
    assert f(i) == MatchAt(p, i) == Some(key);
    MatchAtIff(p, i, key);
    forall j: nat, other | j < i
      ensures !Matches(p, j, other)
    {
      assert f(j).None?;
      MatchAtIff(p, j, other);
    }
  }

  /** The key comes from the path alone: the query string never affects it. */
  lemma KeyIgnoresQuery(path: string, q1: Option<string>, q2: Option<string>)
    ensures ParseFigmaUrl(Some(UrlParts(path, q1))).Ok? == ParseFigmaUrl(Some(UrlParts(path, q2))).Ok?
    ensures ParseFigmaUrl(Some(UrlParts(path, q1))).Ok? ==>
      ParseFigmaUrl(Some(UrlParts(path, q1))).value.fileKey == ParseFigmaUrl(Some(UrlParts(path, q2))).value.fileKey
  {
  }

  /** The key must be followed by `/`: a path that ends right after the key is rejected. */
  lemma KeyNeedsTrailingSlash(key: string, q: Option<string>)
    requires forall k :: 0 <= k < |key| ==> IsAlnum(key[k])
    ensures ParseFigmaUrl(Some(UrlParts("/file/" + key, q))) == Err(NoFileKey)
    ensures ParseFigmaUrl(Some(UrlParts("/design/" + key, q))) == Err(NoFileKey)
  {
    NoSlashAfter("/file/", key, q);
    NoSlashAfter("/design/", key, q);
  }

  /** Where a match puts its slashes: at its start, and right after the key. */
  lemma MatchSlashes(p: string, i: nat, key: string)
    requires Matches(p, i, key)
    ensures var j := if TextAt(p, i, "/file/" + key + "/") then 6 else 8;
      && i + j + |key| < |p| && p[i] == '/' && p[i + j + |key|] == '/'
      && (j == 6 ==> p[i + 1] == 'f') && (j == 8 ==> p[i + 1] == 'd')
  {
    var head := if TextAt(p, i, "/file/" + key + "/") then "/file/" else "/design/";
    var t := head + key + "/";
    assert p[i] == p[i..i + |t|][0] && p[i + 1] == p[i..i + |t|][1];
    assert p[i + |head| + |key|] == p[i..i + |t|][|head| + |key|];
  }

  lemma NoSlashAfter(head: string, key: string, q: Option<string>)
    requires head == "/file/" || head == "/design/"
    requires forall k :: 0 <= k < |key| ==> IsAlnum(key[k])
    ensures ParseFigmaUrl(Some(UrlParts(head + key, q))) == Err(NoFileKey)
  {
    var p := head + key;
    assert forall m :: 0 <= m < |p| && p[m] == '/' ==> m == 0 || m == |head| - 1 by {
      forall m | 0 <= m < |p| && p[m] == '/'
        ensures m == 0 || m == |head| - 1
      {
      }
    }
    if head == "/design/" {
      assert p[1] == 'd';
    }
    forall i: nat, k | i <= |p|
      ensures !Matches(p, i, k)
    {
      if Matches(p, i, k) {
        MatchSlashes(p, i, k);
        assert false;
      }
    }
    NoKeyIff(UrlParts(p, q));
  }
}
