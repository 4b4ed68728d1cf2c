/**
 * Joining URL path segments with "/". Two joins appear in route-node.ts:
 * the upward walk of getRelativeWithParents, which skips empty segments and
 * puts a separator only between non-empty ones, and the absoluteUrl getter,
 * which puts "/" in front of every non-empty segment.
 */
module Segments {

  /** One step of the upward walk: `seg` goes in front of `acc`, with a "/"
      between them only when both are non-empty. */
  function Prepend(seg: string, acc: string): (r: string)
  {
    if seg == "" then acc else if acc == "" then seg else seg + "/" + acc
  }

  /** The non-empty segments of `ss`, in order. */
  function NonEmpty(ss: seq<string>): (r: seq<string>)
    ensures forall s :: s in r <==> s in ss && s != ""
    ensures |r| <= |ss|
  {
    if ss == [] then []
    else (if ss[0] == "" then [] else [ss[0]]) + NonEmpty(ss[1..])
  }

  /** Plain join with "/" as separator (Array.prototype.join("/")). */
  function Join(ss: seq<string>): (r: string)
  {
    if ss == [] then "" else if |ss| == 1 then ss[0] else ss[0] + "/" + Join(ss[1..])
  }

  /** Segments joined from the front with Prepend: what the upward walk builds. */
  function JoinNonEmpty(ss: seq<string>): (r: string)
  {
    if ss == [] then "" else Prepend(ss[0], JoinNonEmpty(ss[1..]))
  }

  /** Every non-empty segment preceded by "/", in order: what absoluteUrl builds. */
  function Prefixed(ss: seq<string>): (r: string)
  {
    if ss == [] then ""
    else
      var last := ss[|ss| - 1];
      Prefixed(ss[..|ss| - 1]) + (if last == "" then "" else "/" + last)
  }

  /** `s.slice(1)`: the string without its first character, "" for "". */
  function DropLeading(s: string): (r: string)
    ensures s == "" ==> r == ""
    ensures s != "" ==> s == [s[0]] + r
  {
    if s == "" then "" else s[1..]
  }

  /** A join of non-empty segments is empty only when there is nothing to join. */
  lemma {:induction false} JoinOfNonEmptyIsEmpty(ss: seq<string>)
    requires forall s :: s in ss ==> s != ""
    ensures Join(ss) == "" <==> ss == []
  {
    if |ss| > 1 {
      assert ss[0] in ss;
    } else if |ss| == 1 {
      assert ss[0] in ss;
    }
  }

  /** The walk's result is the ordinary "/"-join of the non-empty segments:
      empty segments add neither text nor separator. */
  lemma {:induction false} JoinNonEmptyIsJoin(ss: seq<string>)
    ensures JoinNonEmpty(ss) == Join(NonEmpty(ss))
  {
    if ss != [] {
      JoinNonEmptyIsJoin(ss[1..]);
      var rest := NonEmpty(ss[1..]);
      JoinOfNonEmptyIsEmpty(rest);
      if ss[0] == "" {
        assert NonEmpty(ss) == rest;
      } else {
        assert NonEmpty(ss) == [ss[0]] + rest;
        if rest != [] {
          assert ([ss[0]] + rest)[1..] == rest;
        }
      }
    }
  }

  /** An empty segment anywhere in the list changes nothing. */
  lemma {:induction false} JoinNonEmptySkipsEmpty(xs: seq<string>, ys: seq<string>)
    ensures JoinNonEmpty(xs + [""] + ys) == JoinNonEmpty(xs + ys)
  {
    if xs == [] {
      assert xs + [""] + ys == [""] + ys && xs + ys == ys;
      assert ([""] + ys)[1..] == ys;
    } else {
      JoinNonEmptySkipsEmpty(xs[1..], ys);
      assert (xs + [""] + ys)[1..] == xs[1..] + [""] + ys;
      assert (xs + ys)[1..] == xs[1..] + ys;
    }
  }

  /** Adding a segment at the leaf end of the walk. */
  lemma {:induction false} JoinNonEmptySnoc(ss: seq<string>, s: string)
    ensures JoinNonEmpty(ss + [s]) == Prepend(JoinNonEmpty(ss), s)
  {
    if ss == [] {
      assert [s][1..] == [];
    } else {
      JoinNonEmptySnoc(ss[1..], s);
      assert (ss + [s])[1..] == ss[1..] + [s];
    }
  }

  /** "/" before every non-empty segment is the same as "/" before the join,
      unless the join is empty. */
  lemma {:induction false} PrefixedIsSlashJoin(ss: seq<string>)
    ensures Prefixed(ss) == if JoinNonEmpty(ss) == "" then "" else "/" + JoinNonEmpty(ss)
  {
    if ss != [] {
      var init, last := ss[..|ss| - 1], ss[|ss| - 1];
      assert ss == init + [last];
      PrefixedIsSlashJoin(init);
      JoinNonEmptySnoc(init, last);
    }
  }
}
