/**
 The route label (internal/routing/routing.go): which way out a flow asks for. It travels as
 text in a header, is read by every node on the way and handed on unchanged.
 */
module Routing {
  import opened Basics

  const AUTO_PREFIX := "auto:"
  const DIRECT_TEXT := "direct"

  datatype Route = Route(node: string, tag: string, auto: bool)

  const DIRECT := Route("", "", false)

  // ---------------------------------------------------------------- white space

  /** unicode.IsSpace. */
  predicate IsSpace(c: char) {
    || '\t' <= c <= '\r' || c == ' ' || c == '\U{0085}' || c == '\U{00A0}'
    || c == '\U{1680}' || '\U{2000}' <= c <= '\U{200A}' || c == '\U{2028}' || c == '\U{2029}'
    || c == '\U{202F}' || c == '\U{205F}' || c == '\U{3000}'
  }

  /** strings.TrimSpace. */
  function Trim(s: string): string {
    if s == [] then []
    else if IsSpace(s[0]) then Trim(s[1..])
    else if IsSpace(s[|s|-1]) then Trim(s[..|s|-1])
    else s
  }

  predicate Trimmed(s: string) {
    s == [] || (!IsSpace(s[0]) && !IsSpace(s[|s|-1]))
  }

  lemma {:induction false} TrimTrims(s: string)
    ensures Trimmed(Trim(s)) && |Trim(s)| <= |s|
  {
    hide IsSpace;
    if s != [] {
      if IsSpace(s[0]) { TrimTrims(s[1..]); } else if IsSpace(s[|s|-1]) { TrimTrims(s[..|s|-1]); }
    }
  }

  /** Trimming leaves alone exactly what has no space at its ends. */
  lemma {:induction false} TrimIsIdentityIff(s: string)
    ensures Trim(s) == s <==> Trimmed(s)
  {
    TrimTrims(s);
    hide IsSpace;
    if s != [] {
      if IsSpace(s[0]) { TrimTrims(s[1..]); } else if IsSpace(s[|s|-1]) { TrimTrims(s[..|s|-1]); }
    }
  }

  // ---------------------------------------------------------------- to text and back

  function Text(r: Route): string {
    if r.auto then AUTO_PREFIX + r.tag else if r.node == "" then DIRECT_TEXT else r.node
  }

  /** None is the error a node meets with `exit here`. */
  function Parse(s: string): Option<Route> {
    var t := Trim(s);
    if t == "" || t == DIRECT_TEXT then Some(DIRECT)
    else if AUTO_PREFIX <= t then
      var tag := Trim(t[|AUTO_PREFIX|..]);
      if tag == "" then None else Some(Route("", tag, true))
    else if ':' in t then None
    else Some(Route(t, "", false))
  }

  /** The routes that text can carry. */
  predicate Canonical(r: Route) {
    if r.auto then r.node == "" && r.tag != "" && Trimmed(r.tag)
    else r.tag == "" && r.node != DIRECT_TEXT && Trimmed(r.node) && ':' !in r.node
  }

  /** A route comes back from its text exactly when it is canonical. */
  lemma {:induction false} RoundTripIff(r: Route)
    ensures Parse(Text(r)) == Some(r) <==> Canonical(r)
  {
    TrimIsIdentityIff(DIRECT_TEXT);
    TrimIsIdentityIff(r.node);
    TrimTrims(r.node);
    if r.auto {
      AutoText(r.tag);
    } else if Canonical(r) && r.node != "" {
      NoAutoPrefix(r.node);
    } else if Parse(Text(r)) == Some(r) && r.node != "" {
      ParsedIsCanonical(r.node);
    }
  }

  lemma {:induction false} NoAutoPrefix(t: string)
    ensures AUTO_PREFIX <= t ==> ':' in t
  {
    if AUTO_PREFIX <= t { assert t[4] == ':'; }
  }

  lemma {:induction false} AutoText(tag: string)
    ensures Parse(AUTO_PREFIX + tag) == Some(Route("", tag, true)) <==> tag != "" && Trimmed(tag)
  {
    TrimIsIdentityIff(tag);
    TrimTrims(tag);
    if Parse(AUTO_PREFIX + tag) == Some(Route("", tag, true)) { ParsedIsCanonical(AUTO_PREFIX + tag); }
    if tag != "" && Trimmed(tag) {
      assert Trimmed(AUTO_PREFIX + tag) by { assert (AUTO_PREFIX + tag)[|AUTO_PREFIX| + |tag| - 1] == tag[|tag|-1]; }
      TrimIsIdentityIff(AUTO_PREFIX + tag);
      assert (AUTO_PREFIX + tag)[|AUTO_PREFIX|..] == tag;
      assert (AUTO_PREFIX + tag)[0] == 'a' && (AUTO_PREFIX + tag)[0] != DIRECT_TEXT[0];
    }
  }

  /** Whatever a node reads out of a header, writing it down and reading again gives the same. */
  lemma {:induction false} ParsedIsCanonical(s: string)
    ensures Parse(s).Some? ==> Canonical(Parse(s).value)
  {
    var t := Trim(s);
    TrimTrims(s);
    if AUTO_PREFIX <= t { TrimTrims(t[|AUTO_PREFIX|..]); }
  }

  ghost predicate Blank(s: string) {
    forall c :: c in s ==> IsSpace(c)
  }

  /** Trimming takes the space at both ends and no more. */
  lemma {:induction false} TrimDropsTheEnds(pre: string, s: string, post: string)
    requires Blank(pre) && Blank(post) && Trimmed(s)
    ensures Trim(pre + s + post) == s
    decreases |pre| + |post|
  {
    hide IsSpace;
    var all := pre + s + post;
    if pre != [] {
      assert all[0] == pre[0] && all[1..] == pre[1..] + s + post;
      TrimDropsTheEnds(pre[1..], s, post);
    } else if s == [] {
      assert all == post;
      if post != [] {
        assert post[0] in post && all[1..] == [] + s + post[1..];
        TrimDropsTheEnds([], s, post[1..]);
      }
    } else if post != [] {
      assert post[|post|-1] in post && all[..|all|-1] == [] + s + post[..|post|-1] && all[0] == s[0];
      TrimDropsTheEnds([], s, post[..|post|-1]);
    } else {
      assert all == s;
    }
  }

  /** Space around a label, or behind its prefix, does not matter. */
  lemma {:induction false} SpaceDoesNotMatter(pre: string, t: string, post: string)
    requires Blank(pre) && Blank(post) && Trimmed(t)
    ensures Parse(pre + t + post) == Parse(t)
    ensures t != "" ==> Parse(AUTO_PREFIX + pre + t) == Some(Route("", t, true))
  {
    TrimDropsTheEnds(pre, t, post);
    TrimIsIdentityIff(t);
    if t != "" {
      var s := AUTO_PREFIX + pre + t;
      assert s[0] == 'a' && s[|s|-1] == t[|t|-1];
      TrimIsIdentityIff(s);
      assert s[|AUTO_PREFIX|..] == pre + t + [];
      TrimDropsTheEnds(pre, t, []);
      assert s[0] != DIRECT_TEXT[0];
    }
  }

  /** Of labels without space around them the unreadable are those with a colon but no tag after "auto:". */
  lemma {:induction false} UnreadableIff(t: string)
    requires Trimmed(t)
    ensures Parse(t).None? <==> ':' in t && (t == "auto:" || !("auto:" <= t))
  {
    TrimIsIdentityIff(t);
    NoAutoPrefix(t);
    assert ':' !in DIRECT_TEXT;
    if "auto:" <= t {
      var rest := t[5..];
      assert t[0] != DIRECT_TEXT[0] && t == "auto:" + rest;
      TrimTrims(rest);
      if rest == "" {
        assert t == "auto:";
      } else {
        assert rest[|rest|-1] == t[|t|-1];
        NotBlank(rest);
      }
    }
  }

  lemma {:induction false} NotBlank(s: string)
    requires s != [] && !IsSpace(s[|s|-1])
    ensures Trim(s) != ""
  {
    hide IsSpace;
    if IsSpace(s[0]) { NotBlank(s[1..]); }
  }

  // ---------------------------------------------------------------- the decision

  /** None is to let the flow out here, Some the node to lead it to; `pick` is what the pick for the tag answered. */
  function Decide(r: Route, self: string, pick: string): Option<string> {
    var target := if r.auto then pick else r.node;
    if target == "" || target == self then None else Some(target)
  }
}
