/**
 * Path-parameter placeholders in a route segment and the check that every
 * one of them is declared (RouteNode._validateParamsInUrl).
 *
 * A placeholder token is what the global pattern `:[^/]*` matches: a ':'
 * followed by the longest run of characters other than '/'. The run may
 * itself contain ':' characters, which then belong to the same token.
 */
module Placeholders {

  /** Length of the longest prefix of `s` that holds no '/'. */
  function RunLength(s: string): (n: nat)
    ensures n <= |s|
  {
    if s == [] || s[0] == '/' then 0 else 1 + RunLength(s[1..])
  }

  /** The run is '/'-free and stops at a '/' or at the end. */
  lemma {:induction false} RunLengthIsMaximal(s: string)
    ensures forall k :: 0 <= k < RunLength(s) ==> s[k] != '/'
    ensures RunLength(s) < |s| ==> s[RunLength(s)] == '/'
  {
    if s != [] && s[0] != '/' {
      RunLengthIsMaximal(s[1..]);
    }
  }

  /** The tokens of `s` from left to right, as a global match returns them. */
  function Tokens(s: string): (ts: seq<string>)
    ensures |ts| <= |s|
    decreases |s|
  {
    if s == [] then []
    else if s[0] == ':' then
      var n := RunLength(s[1..]);
      [s[..n + 1]] + Tokens(s[n + 1..])
    else Tokens(s[1..])
  }

  /** A token is a ':' followed by characters other than '/'. */
  ghost predicate IsToken(t: string)
  {
    |t| > 0 && t[0] == ':' && '/' !in t
  }

  /** Every match of the pattern has the pattern's shape. */
  lemma {:induction false} TokensAreTokens(s: string)
    ensures forall t :: t in Tokens(s) ==> IsToken(t)
    decreases |s|
  {
    if s != [] && s[0] == ':' {
      var n := RunLength(s[1..]);
      var token := s[..n + 1];
      RunLengthIsMaximal(s[1..]);
      forall k | 1 <= k < |token| ensures token[k] != '/' {
        assert token[k] == s[1..][k - 1];
      }
      TokensAreTokens(s[n + 1..]);
    } else if s != [] {
      TokensAreTokens(s[1..]);
    }
  }

  /** The tokens that the declared parameter names stand for. */
  function DeclaredTokens(params: map<string, string>): (d: set<string>)
    ensures forall v :: v in params.Values ==> ":" + v in d
    ensures forall t :: t in d ==> |t| > 0 && t[0] == ':' && t[1..] in params.Values
  {
    set v | v in params.Values :: ":" + v
  }

  /** The tokens of `ts` not in `declared`, in order and with repeats. */
  function Missing(ts: seq<string>, declared: set<string>): (r: seq<string>)
    ensures forall t :: t in r <==> t in ts && t !in declared
    ensures |r| <= |ts|
  {
    if ts == [] then []
    else (if ts[0] in declared then [] else [ts[0]]) + Missing(ts[1..], declared)
  }

  /**
   * The placeholders of `relativeUrl` that no declared parameter accounts for.
   * Construction fails exactly when this is non-empty; parameters that are
   * declared but never used do not matter.
   */
  function ValidateParamsInUrl(relativeUrl: string, params: map<string, string>): (missing: seq<string>)
    ensures forall t :: t in missing <==> t in Tokens(relativeUrl) && t !in DeclaredTokens(params)
    ensures missing == [] <==> forall t :: t in Tokens(relativeUrl) ==> t in DeclaredTokens(params)
    ensures missing != [] ==> ':' in relativeUrl
  {
    TokensEmptyIff(relativeUrl);
    var missing := Missing(Tokens(relativeUrl), DeclaredTokens(params));
    assert missing != [] ==> missing[0] in missing;
    missing
  }

  /** There are tokens exactly when there is a ':'. */
  lemma {:induction false} TokensEmptyIff(s: string)
    ensures Tokens(s) == [] <==> ':' !in s
    decreases |s|
  {
    if s != [] && s[0] != ':' {
      TokensEmptyIff(s[1..]);
      assert s == [s[0]] + s[1..];
    }
  }

  /** A '/' ends the run: characters after it are never counted. */
  lemma {:induction false} RunLengthStopsAtSlash(x: string, y: string)
    ensures RunLength(x + "/" + y) == RunLength(x)
  {
    if x != [] && x[0] != '/' {
      RunLengthStopsAtSlash(x[1..], y);
      assert (x + "/" + y)[1..] == x[1..] + "/" + y;
    }
  }

  /** Tokens never cross a '/': the tokens of a path are the tokens of its parts. */
  lemma {:induction false} TokensAcrossSlash(a: string, b: string)
    ensures Tokens(a + "/" + b) == Tokens(a) + Tokens(b)
    decreases |a|, 1
  {
    var s := a + "/" + b;
    if a == [] {
      assert s == "/" + b;
      assert s[1..] == b;
    } else if a[0] == ':' {
      TokenThenSlash(a, b);
    } else {
      assert s[0] == a[0];
      assert s[1..] == a[1..] + "/" + b;
      TokensAcrossSlash(a[1..], b);
    }
  }

  /** The case of TokensAcrossSlash where `a` starts with a token. */
  lemma {:induction false} TokenThenSlash(a: string, b: string)
    requires a != [] && a[0] == ':'
    ensures Tokens(a + "/" + b) == Tokens(a) + Tokens(b)
    decreases |a|, 0
  {
    var n := RunLength(a[1..]);
    var token, rest := a[..n + 1], a[n + 1..];
    FirstTokenBeforeSlash(a, b);
    TokensAcrossSlash(rest, b);
    assert [token] + (Tokens(rest) + Tokens(b)) == ([token] + Tokens(rest)) + Tokens(b);
  }

  /** A '/' after `a` does not change the first token of `a`. */
  lemma FirstTokenBeforeSlash(a: string, b: string)
    requires a != [] && a[0] == ':'
    ensures var n := RunLength(a[1..]);
      && Tokens(a) == [a[..n + 1]] + Tokens(a[n + 1..])
      && Tokens(a + "/" + b) == [a[..n + 1]] + Tokens(a[n + 1..] + "/" + b)
  {
    var s := a + "/" + b;
    var n := RunLength(a[1..]);
    var token, rest := a[..n + 1], a[n + 1..];
    assert s[0] == ':';
    assert s[1..] == a[1..] + "/" + b;
    RunLengthStopsAtSlash(a[1..], b);
    assert a == token + rest;
    assert s == token + (rest + "/" + b);
    assert s[..n + 1] == token;
    assert s[n + 1..] == rest + "/" + b;
  }

  /** Within one '/'-free part, the only token is everything from the first ':' on. */
  lemma {:induction false} TokenOfSegment(pre: string, post: string)
    requires ':' !in pre && '/' !in pre && '/' !in post
    ensures Tokens(pre + ":" + post) == [":" + post]
    decreases |pre|
  {
    var s := pre + ":" + post;
    if pre == [] {
      assert s == ":" + post && s[1..] == post;
      RunLengthIsMaximal(post);
      assert RunLength(post) == |post|;
      assert s[..|post| + 1] == s;
      assert s[|post| + 1..] == [];
    } else {
      assert s[0] == pre[0];
      assert s[1..] == pre[1..] + ":" + post;
      TokenOfSegment(pre[1..], post);
    }
  }

  /** Declaring more parameter names never turns a valid segment invalid. */
  lemma ValidateParamsOverDeclaration(relativeUrl: string, params: map<string, string>, more: map<string, string>)
    requires params.Values <= more.Values
    ensures forall t :: t in ValidateParamsInUrl(relativeUrl, more) ==> t in ValidateParamsInUrl(relativeUrl, params)
    ensures ValidateParamsInUrl(relativeUrl, params) == [] ==> ValidateParamsInUrl(relativeUrl, more) == []
  {
  }

  /** A segment followed by one placeholder ("users/:id") has that one token. */
  lemma {:induction false} TokensOfTrailingPlaceholder(a: string, name: string)
    requires ':' !in a && '/' !in name
    ensures Tokens(a + "/:" + name) == [":" + name]
  {
    TokensAcrossSlash(a, ":" + name);
    TokensEmptyIff(a);
    TokenOfSegment("", name);
    assert a + "/:" + name == a + "/" + (":" + name);
    assert "" + ":" + name == ":" + name;
  }

  /** "users/:id" fails with [":id"] unless some key declares "id", and then succeeds. */
  lemma TrailingPlaceholderValidation(a: string, name: string, params: map<string, string>)
    requires ':' !in a && '/' !in name
    ensures ValidateParamsInUrl(a + "/:" + name, params) == if name in params.Values then [] else [":" + name]
  {
    TokensOfTrailingPlaceholder(a, name);
    var declared := DeclaredTokens(params);
    assert ":" + name in declared <==> name in params.Values by {
      if ":" + name in declared {
        assert (":" + name)[1..] == name;
      }
    }
    assert Missing([":" + name], declared) == (if ":" + name in declared then [] else [":" + name]) + Missing([], declared);
  }
}
