/**
 * Textual substitution of path parameters (RouteNode.getAbsoluteUrlWithParams):
 * for each (name, value) entry in order, the FIRST occurrence of ":" + name
 * in the URL built so far is replaced by the value, the way
 * String.prototype.replace behaves with a string pattern. The value is
 * inserted literally.
 */
module Substitution {
  import opened Wrappers

  /** `pat` occurs in `s` starting at index `k`. */
  ghost predicate OccursAt(s: string, pat: string, k: int)
  {
    0 <= k && k + |pat| <= |s| && s[k..k + |pat|] == pat
  }

  /** `k` is where `pat` first occurs in `s`. */
  ghost predicate IsFirstOccurrence(s: string, pat: string, k: int)
  {
    OccursAt(s, pat, k) && forall j :: 0 <= j < k ==> !OccursAt(s, pat, j)
  }

  /** `s.indexOf(pat)`, with None for -1. */
  function IndexOf(s: string, pat: string): (r: Option<nat>)
    ensures r.Some? ==> IsFirstOccurrence(s, pat, r.value)
    ensures r.None? ==> forall k :: !OccursAt(s, pat, k)
    decreases |s|
  {
    if |s| < |pat| then None
    else if s[..|pat|] == pat then Some(0)
    else
      var r := IndexOf(s[1..], pat);
      forall k | 1 <= k ensures OccursAt(s, pat, k) <==> OccursAt(s[1..], pat, k - 1) {
        OccursAtShift(s, pat, k);
      }
      match r
      case None => None
      case Some(k) => Some(k + 1)
  }

  /** Dropping the first character moves every later occurrence one place left. */
  lemma OccursAtShift(s: string, pat: string, k: int)
    requires s != [] && 1 <= k
    ensures OccursAt(s, pat, k) <==> OccursAt(s[1..], pat, k - 1)
  {
    if k + |pat| <= |s| {
      var x, y := s[k..k + |pat|], s[1..][k - 1..k - 1 + |pat|];
      forall i | 0 <= i < |pat| ensures x[i] == y[i] { }
      assert x == y;
    }
  }

  /** `s.replace(pat, rep)` with a string pattern and a literal replacement. */
  function ReplaceFirst(s: string, pat: string, rep: string): (r: string)
    ensures (forall k :: !OccursAt(s, pat, k)) ==> r == s
    ensures forall k :: IsFirstOccurrence(s, pat, k) ==> r == s[..k] + rep + s[k + |pat|..]
  {
    match IndexOf(s, pat)
    case None => s
    case Some(k) => s[..k] + rep + s[k + |pat|..]
  }

  /** The placeholder a parameter name stands for. */
  function Placeholder(name: string): (p: string)
  {
    ":" + name
  }

  /** The URL after substituting the entries of `params`, left to right.
      A URL without ':' is left alone by parameter values without ':'. */
  function SubstituteParams(url: string, params: seq<(string, string)>): (r: string)
    ensures ':' !in url && (forall e :: e in params ==> ':' !in e.1) ==> r == url
  {
    if params == [] then url
    else
      var init := params[..|params| - 1];
      var (name, value) := params[|params| - 1];
      var prev := SubstituteParams(url, init);
      assert forall e :: e in init ==> e in params;
      NoColonNoPlaceholder(prev, name);
      ReplaceFirst(prev, Placeholder(name), value)
  }

  /** With no ':' before it, the placeholder right after `pre` is the first
      occurrence, so it is the one replaced. */
  lemma ReplacePlaceholderAfterColonFree(pre: string, name: string, post: string, value: string)
    requires ':' !in pre
    ensures ReplaceFirst(pre + Placeholder(name) + post, Placeholder(name), value) == pre + value + post
  {
    var s, pat := pre + Placeholder(name) + post, Placeholder(name);
    assert s[|pre|..|pre| + |pat|] == pat;
    forall j | 0 <= j < |pre| ensures !OccursAt(s, pat, j) {
      assert s[j] == pre[j] != ':';
    }
    assert IsFirstOccurrence(s, pat, |pre|);
    assert s[..|pre|] == pre;
    assert s[|pre| + |pat|..] == post;
  }

  /** A string without ':' holds no placeholder. */
  lemma NoColonNoPlaceholder(s: string, name: string)
    ensures ':' !in s ==> forall k :: !OccursAt(s, Placeholder(name), k)
  {
    if ':' !in s {
      var pat := Placeholder(name);
      forall k ensures !OccursAt(s, pat, k) {
        if 0 <= k && k + |pat| <= |s| {
          assert s[k..k + |pat|][0] == s[k] != ':';
        }
      }
    }
  }

  /** "/users/:id" with id = "42" gives "/users/42". */
  lemma UsersIdExample()
    ensures SubstituteParams("/users/:id", [("id", "42")]) == "/users/42"
  {
    ReplacePlaceholderAfterColonFree("/users/", "id", "", "42");
    assert [("id", "42")][..0] == [];
    assert "/users/" + Placeholder("id") + "" == "/users/:id";
    assert "/users/" + "42" + "" == "/users/42";
  }

  /** Substitution is plain text replacement: a name that is a prefix of an
      earlier, longer placeholder's name replaces the start of that placeholder
      ("/:identifier/:id" with id = "5" gives "/5entifier/:id"). */
  lemma ShorterNameHitsLongerPlaceholder(pre: string, name: string, more: string, post: string, value: string)
    requires ':' !in pre
    ensures ReplaceFirst(pre + Placeholder(name + more) + post, Placeholder(name), value) == pre + value + more + post
  {
    var rest := more + post;
    assert Placeholder(name + more) + post == Placeholder(name) + rest;
    assert pre + Placeholder(name + more) + post == pre + Placeholder(name) + rest;
    ReplacePlaceholderAfterColonFree(pre, name, rest, value);
    assert pre + value + rest == pre + value + more + post;
  }
}
