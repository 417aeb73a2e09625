/** The ECMAScript string built-ins the generate handler applies to the
    text extracted from a resume: `replace(/\n+/g, ' ')`, `trim()` and
    `substring(0, n)`. A `char` stands for one UTF-16 code unit. */
module JsStrings {

  /** WhiteSpace and LineTerminator code points of the ECMAScript grammar,
      the set `String.prototype.trim` strips: TAB, VT, FF, ZWNBSP, the
      Unicode "Zs" space separators, LF, CR, LS and PS. */
  predicate IsWs(c: char)
  {
    c in WsChars || '\U{2000}' <= c <= '\U{200A}'
  }

  /** The whitespace code points outside the range U+2000..U+200A. */
  const WsChars: set<char> :=
    {'\t', '\U{000B}', '\U{000C}', '\U{FEFF}', ' ', '\U{00A0}', '\U{1680}',
     '\U{202F}', '\U{205F}', '\U{3000}', '\n', '\r', '\U{2028}', '\U{2029}'}

  predicate AllWs(s: string)
  {
    forall i :: 0 <= i < |s| ==> IsWs(s[i])
  }

  predicate NoNewline(s: string)
  {
    forall i :: 0 <= i < |s| ==> s[i] != '\n'
  }

  /** A run of `k` line feeds. */
  function Newlines(k: nat): (r: string)
    ensures |r| == k && forall i :: 0 <= i < k ==> r[i] == '\n'
  {
    if k == 0 then "" else "\n" + Newlines(k - 1)
  }

  /** `s.replace(/\n+/g, ' ')`: every maximal run of line feeds becomes one
      space. A line feed followed by another is dropped, so that only the
      last line feed of each run turns into the space. */
  function CollapseNewlines(s: string): (r: string)
    ensures NoNewline(r)
    ensures |r| <= |s|
    ensures r == [] <==> s == []
    ensures NoNewline(s) ==> r == s
  {
    if s == [] then []
    else if s[0] == '\n' && |s| > 1 && s[1] == '\n' then CollapseNewlines(s[1..])
    else [if s[0] == '\n' then ' ' else s[0]] + CollapseNewlines(s[1..])
  }

  /** `s.trimStart()`: drops the longest whitespace prefix. */
  function TrimStart(s: string): (r: string)
    ensures |r| <= |s| && r == s[|s| - |r|..]
    ensures AllWs(s[..|s| - |r|])
    ensures r == [] || !IsWs(r[0])
  {
    if s != [] && IsWs(s[0]) then TrimStart(s[1..]) else s
  }

  /** `s.trimEnd()`: drops the longest whitespace suffix. */
  function TrimEnd(s: string): (r: string)
    ensures |r| <= |s| && r == s[..|r|]
    ensures AllWs(s[|r|..])
    ensures r == [] || !IsWs(r[|r| - 1])
  {
    if s != [] && IsWs(s[|s| - 1]) then TrimEnd(s[..|s| - 1]) else s
  }

  /** `s.trim()` */
  function Trim(s: string): string
  {
    TrimEnd(TrimStart(s))
  }

  /** `s.substring(0, n)` for a non-negative `n`: the first `n` code units,
      or all of `s` when it is shorter. */
  function Substring(s: string, n: nat): (r: string)
    ensures r <= s
    ensures |r| == if |s| <= n then |s| else n
  {
    if |s| <= n then s else s[..n]
  }

  /** A run of one or more line feeds that is not followed by another line
      feed becomes exactly one space. */
  lemma {:induction false} CollapseRun(k: nat, t: string)
    requires k >= 1
    requires t == [] || t[0] != '\n'
    ensures CollapseNewlines(Newlines(k) + t) == " " + CollapseNewlines(t)
  {
    var s := Newlines(k) + t;
    assert s[1..] == Newlines(k - 1) + t;
    if k > 1 {
      CollapseRun(k - 1, t);
    }
  }

  /** Collapsing distributes over a concatenation that does not split a run
      of line feeds. */
  lemma {:induction false} CollapseAppend(a: string, b: string)
    requires a == [] || b == [] || a[|a| - 1] != '\n' || b[0] != '\n'
    ensures CollapseNewlines(a + b) == CollapseNewlines(a) + CollapseNewlines(b)
  {
    if a != [] {
      assert (a + b)[1..] == a[1..] + b;
      if |a| > 1 {
        CollapseAppend(a[1..], b);
      } else {
        assert a[1..] == [];
      }
    } else {
      assert a + b == b;
    }
  }

  /** Collapsing keeps a string blank exactly when it was blank: a line feed
      is whitespace and turns into a space, and every other character is
      kept. */
  lemma {:induction false} CollapseBlank(s: string)
    ensures AllWs(CollapseNewlines(s)) <==> AllWs(s)
  {
    if s != [] {
      CollapseBlank(s[1..]);
      var r := CollapseNewlines(s);
      var rest := CollapseNewlines(s[1..]);
      if s[0] == '\n' && |s| > 1 && s[1] == '\n' {
        assert r == rest;
      } else {
        assert r[1..] == rest;
        assert IsWs(r[0]) <==> IsWs(s[0]);
        assert AllWs(s) <==> IsWs(s[0]) && AllWs(s[1..]);
        assert AllWs(r) <==> IsWs(r[0]) && AllWs(r[1..]);
      }
    }
  }

  /** The length of the longest whitespace prefix of `s`. */
  function LeadingWs(s: string): (n: nat)
    ensures n <= |s|
  {
    |s| - |TrimStart(s)|
  }

  /** `trim()` returns the slice of `s` between its longest whitespace
      prefix and its longest whitespace suffix: what is cut off is blank,
      and a non-empty result starts and ends with a non-whitespace
      character. */
  lemma TrimIsCore(s: string)
    ensures LeadingWs(s) + |Trim(s)| <= |s|
    ensures Trim(s) == s[LeadingWs(s)..LeadingWs(s) + |Trim(s)|]
    ensures AllWs(s[..LeadingWs(s)]) && AllWs(s[LeadingWs(s) + |Trim(s)|..])
    ensures Trim(s) == [] || (!IsWs(Trim(s)[0]) && !IsWs(Trim(s)[|Trim(s)| - 1]))
  {
    TrimSlices(s);
    TrimEnds(s);
  }

  lemma TrimSlices(s: string)
    ensures LeadingWs(s) + |Trim(s)| <= |s|
    ensures Trim(s) == s[LeadingWs(s)..LeadingWs(s) + |Trim(s)|]
    ensures AllWs(s[LeadingWs(s) + |Trim(s)|..])
  {
    var t := TrimStart(s);
    var r := TrimEnd(t);
    assert t == s[LeadingWs(s)..];
    SuffixSlices(s, LeadingWs(s), |r|);
  }

  lemma TrimEnds(s: string)
    ensures Trim(s) == [] || (!IsWs(Trim(s)[0]) && !IsWs(Trim(s)[|Trim(s)| - 1]))
  {
    var t := TrimStart(s);
    var r := TrimEnd(t);
    if r != [] {
      assert r[0] == t[0];
    }
  }

  lemma SuffixSlices(s: string, i: nat, k: nat)
    requires i + k <= |s|
    ensures s[i..][..k] == s[i..i + k] && s[i..][k..] == s[i + k..]
  {
  }

  /** `trim()` yields the empty string exactly for blank input. */
  lemma TrimEmptyIffBlank(s: string)
    ensures Trim(s) == [] <==> AllWs(s)
  {
    TrimIsCore(s);
    var i := LeadingWs(s);
    if Trim(s) == [] {
      assert TrimStart(s) == [];
      assert s[..i] == s;
    } else {
      assert !IsWs(s[i]);
    }
  }

  /** Trimming twice changes nothing more. */
  lemma TrimIdempotent(s: string)
    ensures Trim(Trim(s)) == Trim(s)
  {
    TrimIsCore(s);
    var r := Trim(s);
    if r != [] {
      assert TrimStart(r) == r;
      assert TrimEnd(r) == r;
    }
  }
}
