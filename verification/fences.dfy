/** The two fixed regular expressions the source uses to pull a fenced JSON
    block out of model output, stated as substring searches.

    `/```json\s*([\s\S]*?)\s*```/` (loose): the leftmost match starts at the
    first "```json"; because the group is lazy and `\s*` is greedy on both
    sides, the group is the text between that opening and the next "```",
    trimmed of whitespace.

    `/```json\n([\s\S]*?)\n```/` (strict): the leftmost match starts at the
    first "```json\n"; the lazy group runs up to the next "\n```". */
module Fences {
  import opened Wrappers
  import opened Text

  const LooseOpen: string := "```json"
  const Ticks: string := "```"
  const StrictOpen: string := "```json\n"
  const StrictClose: string := "\n```"

  /** Capture group 1 of the loose pattern, or `None` when it does not match. */
  function LooseFence(raw: string): (r: Option<string>)
    ensures r.Some? ==> IsSubstring(r.value, raw)
    ensures r.Some? ==> r.value == [] || (!IsSpace(r.value[0]) && !IsSpace(r.value[|r.value| - 1]))
  {
    match Find(raw, LooseOpen, 0)
    case None => None
    case Some(p) =>
      match Find(raw, Ticks, p + |LooseOpen|)
      case None => None
      case Some(k) =>
        var g := Trim(raw[p + |LooseOpen|..k]);
        SubstringOfSlice(g, raw, p + |LooseOpen|, k);
        Some(g)
  }

  /** Capture group 1 of the strict pattern, or `None` when it does not match. */
  function StrictFence(raw: string): (r: Option<string>)
    ensures r.Some? ==> exists p :: OccursAt(raw, StrictOpen + r.value + StrictClose, p)
  {
    match Find(raw, StrictOpen, 0)
    case None => None
    case Some(p) =>
      match Find(raw, StrictClose, p + |StrictOpen|)
      case None => None
      case Some(k) =>
        var g := raw[p + |StrictOpen|..k];
        assert raw[p..k + |StrictClose|] == StrictOpen + g + StrictClose;
        assert OccursAt(raw, StrictOpen + g + StrictClose, p);
        Some(g)
  }

  /** Every occurrence of a pattern that starts with a backtick lies at a
      backtick. */
  lemma TickAt(s: string, pat: string, i: nat)
    requires |pat| > 0 && pat[0] == '`' && OccursAt(s, pat, i)
    ensures s[i] == '`'
  {
    assert s[i..i + |pat|][0] == s[i];
  }

  /** Text without a backtick holds no fenced block. */
  lemma NoTickNoFence(raw: string)
    requires '`' !in raw
    ensures LooseFence(raw) == None && StrictFence(raw) == None
  {
    var a := Find(raw, LooseOpen, 0);
    if a.Some? {
      TickAt(raw, LooseOpen, a.value);
      assert false;
    }
    var b := Find(raw, StrictOpen, 0);
    if b.Some? {
      TickAt(raw, StrictOpen, b.value);
      assert false;
    }
  }

  /** The first occurrence of a pattern with a backtick at offset `t` is the
      one at `p` when no backtick lies where an earlier occurrence would put
      its own. */
  lemma FindFirstTick(s: string, pat: string, t: nat, from: nat, p: nat)
    requires t < |pat| && pat[t] == '`'
    requires from <= p && OccursAt(s, pat, p)
    requires forall i :: from + t <= i < p + t ==> s[i] != '`'
    ensures Find(s, pat, from) == Some(p)
  {
  }

  /** A strict fence opening at `p` and closing at `k`, with no backtick
      before either, is the one extracted. */
  lemma StrictFenceAt(s: string, p: nat, k: nat, body: string)
    requires OccursAt(s, StrictOpen, p) && p + |StrictOpen| <= k && OccursAt(s, StrictClose, k)
    requires s[p + |StrictOpen|..k] == body
    requires forall i :: 0 <= i < p ==> s[i] != '`'
    requires forall i :: p + |StrictOpen| + 1 <= i < k + 1 ==> s[i] != '`'
    ensures StrictFence(s) == Some(body)
  {
    FindFirstTick(s, StrictOpen, 0, 0, p);
    FindFirstTick(s, StrictClose, 1, p + |StrictOpen|, k);
  }

  /** A loose fence opening at `p` and closing at `k`, with no backtick
      before either, is the one extracted. */
  lemma LooseFenceAt(s: string, p: nat, k: nat, body: string)
    requires OccursAt(s, LooseOpen, p) && p + |LooseOpen| <= k && OccursAt(s, Ticks, k)
    requires s[p + |LooseOpen|..k] == body
    requires forall i :: 0 <= i < p ==> s[i] != '`'
    requires forall i :: p + |LooseOpen| <= i < k ==> s[i] != '`'
    ensures LooseFence(s) == Some(Trim(body))
  {
    FindFirstTick(s, LooseOpen, 0, 0, p);
    FindFirstTick(s, Ticks, 0, p + |LooseOpen|, k);
  }

  /** The positions of a fenced body in `pre + open + body + close + post`. */
  lemma FencedLayout(pre: string, open: string, body: string, close: string, post: string)
    ensures var s := pre + open + body + close + post;
            var q := |pre| + |open|;
            var k := q + |body|;
            && OccursAt(s, open, |pre|) && OccursAt(s, close, k) && s[q..k] == body
            && (forall i :: 0 <= i < |pre| ==> s[i] == pre[i])
            && (forall i :: q <= i < k ==> s[i] == body[i - q])
            && (|close| > 0 ==> s[k] == close[0])
  {
    var s := pre + open + body + close + post;
    var q := |pre| + |open|;
    var k := q + |body|;
    assert s == pre + (open + (body + (close + post)));
    assert s[|pre|..q] == open;
    assert s[q..k] == body;
    assert s[k..k + |close|] == close;
  }

  /** Wrapping a backtick-free body in a strict fence after backtick-free prose
      and extracting it gives the body back, whatever follows the fence. */
  lemma StrictFenceRoundTrip(pre: string, body: string, post: string)
    requires '`' !in pre && '`' !in body
    ensures StrictFence(pre + StrictOpen + body + StrictClose + post) == Some(body)
  {
    var s := pre + StrictOpen + body + StrictClose + post;
    FencedLayout(pre, StrictOpen, body, StrictClose, post);
    StrictFenceAt(s, |pre|, |pre| + |StrictOpen| + |body|, body);
  }

  /** The loose counterpart: the body comes back trimmed. */
  lemma LooseFenceRoundTrip(pre: string, body: string, post: string)
    requires '`' !in pre && '`' !in body
    ensures LooseFence(pre + LooseOpen + body + Ticks + post) == Some(Trim(body))
  {
    var s := pre + LooseOpen + body + Ticks + post;
    FencedLayout(pre, LooseOpen, body, Ticks, post);
    LooseFenceAt(s, |pre|, |pre| + |LooseOpen| + |body|, body);
  }
}
