/** String operations of the ECMAScript standard library that the source relies
    on (`trim`, `startsWith`, `indexOf`, `lastIndexOf`, `toLowerCase`, `join`,
    `split`) and the substring search that stands in for its fixed regexes.
    Strings are sequences of Unicode scalar values. */
module Text {
  import opened Wrappers

  /** The characters `String.prototype.trim` removes and the regex class `\s`
      matches: WhiteSpace and LineTerminator of ECMAScript, section 12.2-12.3. */
  predicate IsSpace(c: char) {
    var n := c as int;
    n == 0x09 || n == 0x0A || n == 0x0B || n == 0x0C || n == 0x0D || n == 0x20
    || n == 0xA0 || n == 0x1680 || (0x2000 <= n <= 0x200A) || n == 0x2028
    || n == 0x2029 || n == 0x202F || n == 0x205F || n == 0x3000 || n == 0xFEFF
  }

  predicate AllSpaces(s: string) {
    forall i :: 0 <= i < |s| ==> IsSpace(s[i])
  }

  /** Number of whitespace characters at the front of `s`. */
  function LeadingSpaces(s: string): (n: nat)
    ensures n <= |s|
    ensures forall i :: 0 <= i < n ==> IsSpace(s[i])
    ensures n < |s| ==> !IsSpace(s[n])
  {
    if |s| > 0 && IsSpace(s[0]) then 1 + LeadingSpaces(s[1..]) else 0
  }

  /** Number of whitespace characters at the back of `s`. */
  function TrailingSpaces(s: string): (n: nat)
    ensures n <= |s|
    ensures forall i :: |s| - n <= i < |s| ==> IsSpace(s[i])
    ensures n < |s| ==> !IsSpace(s[|s| - n - 1])
  {
    if |s| > 0 && IsSpace(s[|s| - 1]) then 1 + TrailingSpaces(s[..|s| - 1]) else 0
  }

  /** The leading-space count is the only split into a blank prefix and a
      remainder that does not start with a space. */
  lemma LeadingSpacesUnique(s: string, n: nat)
    requires n <= |s|
    requires forall i :: 0 <= i < n ==> IsSpace(s[i])
    requires n < |s| ==> !IsSpace(s[n])
    ensures LeadingSpaces(s) == n
  {
  }

  lemma TrailingSpacesUnique(s: string, n: nat)
    requires n <= |s|
    requires forall i :: |s| - n <= i < |s| ==> IsSpace(s[i])
    requires n < |s| ==> !IsSpace(s[|s| - n - 1])
    ensures TrailingSpaces(s) == n
  {
  }

  predicate IsSubstring(x: string, s: string) {
    exists a, b :: 0 <= a <= b <= |s| && s[a..b] == x
  }

  /** A substring of a slice is a substring of the whole. */
  lemma SubstringOfSlice(x: string, s: string, lo: nat, hi: nat)
    requires lo <= hi <= |s| && IsSubstring(x, s[lo..hi])
    ensures IsSubstring(x, s)
  {
    var a, b :| 0 <= a <= b <= hi - lo && s[lo..hi][a..b] == x;
    var u := s[lo..hi];
    forall i | 0 <= i < b - a
      ensures s[lo + a..lo + b][i] == u[a..b][i]
    {
      assert u[a + i] == s[lo + a + i];
    }
    assert s[lo + a..lo + b] == x;
  }

  /** `String.prototype.trim`. */
  function Trim(s: string): (r: string)
    ensures IsSubstring(r, s)
    ensures r == [] || (!IsSpace(r[0]) && !IsSpace(r[|r| - 1]))
  {
    var a := LeadingSpaces(s);
    var t := s[a..];
    var b := |t| - TrailingSpaces(t);
    assert t[..b] == s[a..a + b];
    t[..b]
  }

  /** Trimming removes exactly the blank padding around a non-blank core. */
  lemma TrimPadded(s: string, pre: string, x: string, post: string)
    requires s == pre + x + post
    requires AllSpaces(pre) && AllSpaces(post)
    requires x == [] || (!IsSpace(x[0]) && !IsSpace(x[|x| - 1]))
    requires x != [] || post == []
    ensures Trim(s) == x
  {
    assert forall i :: 0 <= i < |pre| ==> s[i] == pre[i];
    LeadingSpacesUnique(s, |pre|);
    var t := s[|pre|..];
    assert t == x + post;
    assert forall i :: |x| <= i < |t| ==> t[i] == post[i - |x|];
    TrailingSpacesUnique(t, |post|);
    assert t[..|x|] == x;
  }

  /** Text that neither starts nor ends with whitespace trims to itself. */
  lemma TrimOfTrimmed(x: string)
    requires x == [] || (!IsSpace(x[0]) && !IsSpace(x[|x| - 1]))
    ensures Trim(x) == x
  {
    TrimPadded(x, [], x, []);
  }

  /** A non-empty trim starts at the first non-space character. */
  lemma TrimFirst(s: string)
    requires Trim(s) != []
    ensures LeadingSpaces(s) < |s| && Trim(s)[0] == s[LeadingSpaces(s)]
  {
  }

  /** A string with no non-space character trims to nothing. */
  lemma TrimBlank(s: string)
    requires AllSpaces(s)
    ensures Trim(s) == []
  {
    TrimPadded(s, s, [], []);
  }

  /** A string with a non-space character does not trim to nothing. */
  lemma TrimKeepsNonBlank(s: string)
    ensures LeadingSpaces(s) < |s| ==> Trim(s) != []
  {
    var a := LeadingSpaces(s);
    if a < |s| {
      var t := s[a..];
      assert t[0] == s[a];
      assert TrailingSpaces(t) < |t|;
    }
  }

  lemma AllSpacesConcat(x: string, y: string)
    requires AllSpaces(x) && AllSpaces(y)
    ensures AllSpaces(x + y)
  {
    assert forall i :: |x| <= i < |x + y| ==> (x + y)[i] == y[i - |x|];
  }

  lemma TrimPaddedBlank(pre: string, s: string, post: string)
    requires AllSpaces(pre) && AllSpaces(post) && Trim(s) == []
    ensures Trim(pre + s + post) == []
  {
    TrimKeepsNonBlank(s);
    AllSpacesConcat(pre, s);
    AllSpacesConcat(pre + s, post);
    TrimBlank(pre + s + post);
  }

  /** The leading-space count cuts `s` into a blank front and a rest that
      does not start with a space. */
  lemma FrontOfCore(s: string, a: nat)
    requires a == LeadingSpaces(s)
    ensures AllSpaces(s[..a])
    ensures a < |s| ==> !IsSpace(s[a..][0])
  {
  }

  /** The trailing-space count of a text that does not start with a space
      cuts it into a core and a blank back, and the core is empty only when
      the text is. */
  lemma BackOfCore(t: string, b: nat)
    requires b == |t| - TrailingSpaces(t)
    requires |t| > 0 ==> !IsSpace(t[0])
    ensures AllSpaces(t[b..])
    ensures b == 0 ==> t == []
  {
    assert forall i :: 0 <= i < |t| - b ==> t[b..][i] == t[b + i];
  }

  /** Cutting at `a` and then at `b` past it gives three pieces that put the
      string back together. */
  lemma Pieces(s: string, a: nat, b: nat)
    requires a <= |s| && b <= |s| - a
    ensures s == s[..a] + s[a..][..b] + s[a..][b..]
  {
    assert s[a..] == s[a..][..b] + s[a..][b..];
  }

  /** A string is its blank lead, its trim and its blank tail. */
  lemma TrimParts(s: string) returns (lead: string, x: string, tail: string)
    ensures s == lead + x + tail && x == Trim(s)
    ensures AllSpaces(lead) && AllSpaces(tail) && (x != [] || tail == [])
  {
    var a := LeadingSpaces(s);
    var t := s[a..];
    FrontOfCore(s, a);
    var b := |t| - TrailingSpaces(t);
    BackOfCore(t, b);
    lead, x, tail := s[..a], t[..b], t[b..];
    Pieces(s, a, b);
  }

  lemma Regroup<T>(a: seq<T>, b: seq<T>, c: seq<T>, d: seq<T>, e: seq<T>)
    ensures a + (b + c + d) + e == (a + b) + c + (d + e)
  {
  }

  lemma TrimPaddedNonBlank(pre: string, s: string, post: string)
    requires AllSpaces(pre) && AllSpaces(post) && Trim(s) != []
    ensures Trim(pre + s + post) == Trim(s)
  {
    var lead, x, tail := TrimParts(s);
    Regroup(pre, lead, x, tail, post);
    AllSpacesConcat(pre, lead);
    AllSpacesConcat(tail, post);
    TrimPadded(pre + s + post, pre + lead, x, tail + post);
  }

  /** Extra blank padding does not change what trimming keeps. */
  lemma TrimIgnoresPadding(pre: string, s: string, post: string)
    requires AllSpaces(pre) && AllSpaces(post)
    ensures Trim(pre + s + post) == Trim(s)
  {
    if Trim(s) == [] {
      TrimPaddedBlank(pre, s, post);
    } else {
      TrimPaddedNonBlank(pre, s, post);
    }
  }

  lemma TrimIdempotent(s: string)
    ensures Trim(Trim(s)) == Trim(s)
  {
    TrimOfTrimmed(Trim(s));
  }

  predicate StartsWith(s: string, prefix: string) {
    |prefix| <= |s| && s[..|prefix|] == prefix
  }

  /** A prefix of a prefix is a prefix. */
  lemma StartsWithTransitive(s: string, p: string, q: string)
    requires StartsWith(s, p) && StartsWith(p, q)
    ensures StartsWith(s, q)
  {
    assert s[..|q|] == s[..|p|][..|q|];
  }

  predicate OccursAt(s: string, pat: string, i: nat) {
    i + |pat| <= |s| && s[i..i + |pat|] == pat
  }

  /** `s.includes(pat)` */
  predicate Includes(s: string, pat: string) {
    Find(s, pat, 0).Some?
  }

  /** The first index at or after `from` where `pat` occurs in `s`. */
  function Find(s: string, pat: string, from: nat): (r: Option<nat>)
    ensures r.Some? ==> from <= r.value && OccursAt(s, pat, r.value)
    ensures forall i: nat :: from <= i && (r.None? || i < r.value) ==> !OccursAt(s, pat, i)
    decreases |s| - from
  {
    if |s| < from + |pat| then None
    else if OccursAt(s, pat, from) then Some(from)
    else Find(s, pat, from + 1)
  }

  /** `s.indexOf(c)` for a one-character needle (`None` for -1). */
  function IndexOf(s: string, c: char): (r: Option<nat>)
    ensures r.Some? ==> r.value < |s| && s[r.value] == c
    ensures forall j :: 0 <= j < |s| && (r.None? || j < r.value) ==> s[j] != c
  {
    if |s| == 0 then None
    else if s[0] == c then Some(0)
    else match IndexOf(s[1..], c)
      case None => None
      case Some(i) => Some(i + 1)
  }

  /** In `p + [c] + rest`, with no `c` in `p`, the first `c` is the one right
      after `p`. */
  lemma IndexOfAfter(p: string, c: char, rest: string)
    requires c !in p
    ensures IndexOf(p + [c] + rest, c) == Some(|p|)
  {
    var s := p + [c] + rest;
    assert s[|p|] == c;
    assert forall j :: 0 <= j < |p| ==> s[j] == p[j];
  }

  /** `s.lastIndexOf(c)` for a one-character needle (`None` for -1). */
  function LastIndexOf(s: string, c: char): (r: Option<nat>)
    ensures r.Some? ==> r.value < |s| && s[r.value] == c
    ensures forall j :: 0 <= j < |s| && (r.None? || r.value < j) ==> s[j] != c
  {
    if |s| == 0 then None
    else if s[|s| - 1] == c then Some(|s| - 1)
    else LastIndexOf(s[..|s| - 1], c)
  }

  /** `toLowerCase` on one character; only the ASCII letters are mapped. */
  function LowerChar(c: char): char {
    if 'A' <= c <= 'Z' then (c as int + 32) as char else c
  }

  function ToLower(s: string): (r: string)
    ensures |r| == |s| && forall i :: 0 <= i < |s| ==> r[i] == LowerChar(s[i])
  {
    seq(|s|, i requires 0 <= i < |s| => LowerChar(s[i]))
  }

  lemma ToLowerIdempotent(s: string)
    ensures ToLower(ToLower(s)) == ToLower(s)
  {
  }

  lemma ToLowerAppend(a: string, b: string)
    ensures ToLower(a + b) == ToLower(a) + ToLower(b)
  {
  }

  /** Whitespace has no upper case. */
  lemma LowerOfSpaces(s: string)
    requires AllSpaces(s)
    ensures ToLower(s) == s
  {
  }

  lemma LowerKeepsEnds(x: string)
    requires x == [] || (!IsSpace(x[0]) && !IsSpace(x[|x| - 1]))
    ensures var l := ToLower(x); l == [] || (!IsSpace(l[0]) && !IsSpace(l[|l| - 1]))
  {
  }

  /** Lower-casing padded text lower-cases only the text between the
      padding. */
  lemma LowerOfPadded(lead: string, x: string, tail: string)
    requires AllSpaces(lead) && AllSpaces(tail)
    ensures ToLower(lead + x + tail) == lead + ToLower(x) + tail
  {
    ToLowerAppend(lead + x, tail);
    ToLowerAppend(lead, x);
    LowerOfSpaces(lead);
    LowerOfSpaces(tail);
  }

  /** Trimming and lower-casing commute. */
  lemma TrimToLowerCommute(s: string)
    ensures Trim(ToLower(s)) == ToLower(Trim(s))
  {
    var lead, x, tail := TrimParts(s);
    LowerOfPadded(lead, x, tail);
    LowerKeepsEnds(x);
    TrimPadded(ToLower(s), lead, ToLower(x), tail);
  }

  /** `parts.join(sep)`. */
  function Join(parts: seq<string>, sep: string): string {
    if |parts| == 0 then ""
    else if |parts| == 1 then parts[0]
    else parts[0] + sep + Join(parts[1..], sep)
  }

  /** A join starts with its first part and ends with its last. */
  lemma {:induction false} JoinEnds(parts: seq<string>, sep: string)
    requires |parts| > 0
    ensures var j := Join(parts, sep); var last := parts[|parts| - 1];
            StartsWith(j, parts[0]) && |last| <= |j| && j[|j| - |last|..] == last
    ensures var j := Join(parts, sep); var last := parts[|parts| - 1];
            last != [] ==> j[|j| - 1] == last[|last| - 1]
    decreases |parts|
  {
    if |parts| > 1 {
      JoinEnds(parts[1..], sep);
      var rest := Join(parts[1..], sep);
      var last := parts[|parts| - 1];
      assert parts[1..][|parts[1..]| - 1] == last;
      assert Join(parts, sep) == parts[0] + sep + rest;
      assert (parts[0] + sep + rest)[|parts[0] + sep + rest| - |last|..] == rest[|rest| - |last|..];
    }
  }

  /** `s.split(c)` for a one-character separator. */
  function Split(s: string, c: char): (r: seq<string>)
    ensures |r| > 0
    decreases |s|
  {
    match IndexOf(s, c)
    case None => [s]
    case Some(i) => [s[..i]] + Split(s[i + 1..], c)
  }

  /** Splitting a joined list at a separator that no part contains gives the
      parts back. */
  lemma {:induction false} SplitJoin(parts: seq<string>, c: char)
    requires |parts| > 0
    requires forall k :: 0 <= k < |parts| ==> c !in parts[k]
    ensures Split(Join(parts, [c]), c) == parts
    decreases |parts|
  {
    if |parts| == 1 {
      assert IndexOf(parts[0], c) == None;
    } else {
      var s := Join(parts, [c]);
      var rest := Join(parts[1..], [c]);
      assert s == parts[0] + [c] + rest;
      assert s[|parts[0]|] == c;
      var r := IndexOf(s, c);
      assert r.Some?;
      assert forall j :: 0 <= j < |parts[0]| ==> s[j] == parts[0][j] && parts[0][j] != c;
      assert r.value == |parts[0]|;
      assert s[..r.value] == parts[0];
      assert s[|parts[0]| + 1..] == rest;
      SplitJoin(parts[1..], c);
    }
  }

  /** Joining the pieces of a split puts the string back together. */
  lemma {:induction false} JoinSplit(s: string, c: char)
    ensures Join(Split(s, c), [c]) == s
    decreases |s|
  {
    match IndexOf(s, c)
    case None =>
    case Some(i) =>
      JoinSplit(s[i + 1..], c);
      assert s == s[..i] + [c] + s[i + 1..];
  }
}
