/** The Python `str` operations the core applies to replies and data URLs:
    `strip()`, `replace(old, "")` and `removeprefix(p)`. */
module Text {

  /** `str.isspace()` for one character: the C0 separators, the space,
      NEL, NO-BREAK SPACE and the Unicode spaces and line separators. */
  predicate IsSpace(c: char)
  {
    var n := c as int;
    (9 <= n <= 13) || (28 <= n <= 32) || n == 0x85 || n == 0xA0 || n == 0x1680
    || (0x2000 <= n <= 0x200A) || n == 0x2028 || n == 0x2029 || n == 0x202F
    || n == 0x205F || n == 0x3000
  }

  /** The number of whitespace characters `s` starts with. */
  function LeadingSpaces(s: string): (n: nat)
    ensures n <= |s|
    ensures forall k :: 0 <= k < n ==> IsSpace(s[k])
    ensures n == |s| || !IsSpace(s[n])
  {
    if |s| > 0 && IsSpace(s[0]) then 1 + LeadingSpaces(s[1..]) else 0
  }

  /** The index at which the whitespace `s` ends with begins. */
  function TrailingStart(s: string): (n: nat)
    ensures n <= |s|
    ensures forall k :: n <= k < |s| ==> IsSpace(s[k])
    ensures n == 0 || !IsSpace(s[n - 1])
  {
    if |s| > 0 && IsSpace(s[|s| - 1]) then TrailingStart(s[..|s| - 1]) else |s|
  }

  /** `str.lstrip()`. */
  function TrimStart(s: string): string
  {
    s[LeadingSpaces(s)..]
  }

  /** `str.rstrip()`. */
  function TrimEnd(s: string): string
  {
    s[..TrailingStart(s)]
  }

  /** `str.strip()`. */
  function Strip(s: string): string
  {
    TrimEnd(TrimStart(s))
  }

  /** `s[i..j]` is `s` without a whitespace prefix and a whitespace suffix. */
  predicate TrimmedSliceAt(s: string, i: int, j: int)
  {
    && 0 <= i <= j <= |s|
    && (forall k :: 0 <= k < i ==> IsSpace(s[k]))
    && (forall k :: j <= k < |s| ==> IsSpace(s[k]))
  }

  /** `Strip(s)` is the slice of `s` between its leading and its trailing
      whitespace, and starts and ends with a non-space character. */
  lemma StripIsTrimmedSlice(s: string)
    ensures exists i, j :: TrimmedSliceAt(s, i, j) && Strip(s) == s[i..j]
    ensures Strip(s) == [] || (!IsSpace(Strip(s)[0]) && !IsSpace(Strip(s)[|Strip(s)| - 1]))
  {
    var i := LeadingSpaces(s);
    var t := s[i..];
    var e := TrailingStart(t);
    var j := i + e;
    assert Strip(s) == t[..e];
    assert t[..e] == s[i..j];
    forall k | j <= k < |s|
      ensures IsSpace(s[k])
    {
      assert s[k] == t[k - i];
    }
    assert TrimmedSliceAt(s, i, j);
    if e > 0 {
      assert Strip(s)[0] == s[i];
      assert Strip(s)[e - 1] == t[e - 1];
    }
  }

  /** Stripping twice is stripping once. */
  lemma StripIdempotent(s: string)
    ensures Strip(Strip(s)) == Strip(s)
  {
    StripIsTrimmedSlice(s);
    var r := Strip(s);
    if r != [] {
      assert LeadingSpaces(r) == 0;
      assert TrimStart(r) == r;
      assert TrailingStart(r) == |r|;
      assert TrimEnd(r) == r;
    }
  }

  /** `t` occurs in `s` at index `i`. */
  predicate OccursAt(s: string, t: string, i: int)
  {
    0 <= i && i + |t| <= |s| && s[i..i + |t|] == t
  }

  /** `s.replace(pat, rep)`: a left-to-right scan that replaces every
      non-overlapping occurrence of `pat`, the leftmost first. */
  function ReplaceAll(s: string, pat: string, rep: string): string
    requires |pat| > 0
    decreases |s|
  {
    if |s| < |pat| then s
    else if s[..|pat|] == pat then rep + ReplaceAll(s[|pat|..], pat, rep)
    else [s[0]] + ReplaceAll(s[1..], pat, rep)
  }

  /** A string with no occurrence of `pat` comes out of the scan unchanged. */
  lemma {:induction false} ReplaceAbsent(s: string, pat: string, rep: string)
    requires |pat| > 0
    requires forall i :: !OccursAt(s, pat, i)
    ensures ReplaceAll(s, pat, rep) == s
  {
    if |s| >= |pat| {
      assert !OccursAt(s, pat, 0);
      assert s[..|pat|] != pat;
      forall i ensures !OccursAt(s[1..], pat, i) {
        if OccursAt(s[1..], pat, i) {
          assert s[1..][i..i + |pat|] == s[i + 1..i + 1 + |pat|];
          assert OccursAt(s, pat, i + 1);
        }
      }
      ReplaceAbsent(s[1..], pat, rep);
    }
  }

  /** A scan that meets `pat` at the head replaces it and goes on after it. */
  lemma ReplaceAtHead(pat: string, s: string, rep: string)
    requires |pat| > 0
    ensures ReplaceAll(pat + s, pat, rep) == rep + ReplaceAll(s, pat, rep)
  {
    assert (pat + s)[..|pat|] == pat;
    assert (pat + s)[|pat|..] == s;
  }

  /** A prefix holding no character that `pat` starts with is kept as it
      is, and the scan goes on with what follows it. */
  lemma {:induction false} ReplaceSkipsPlain(x: string, y: string, pat: string, rep: string)
    requires |pat| > 0
    requires forall k :: 0 <= k < |x| ==> x[k] != pat[0]
    ensures ReplaceAll(x + y, pat, rep) == x + ReplaceAll(y, pat, rep)
  {
    var s := x + y;
    if x == [] {
      assert s == y;
    } else if |s| < |pat| {
      assert ReplaceAll(s, pat, rep) == s;
      assert ReplaceAll(y, pat, rep) == y;
    } else {
      assert s[..|pat|] != pat by { assert s[..|pat|][0] == x[0]; }
      assert ReplaceAll(s, pat, rep) == [x[0]] + ReplaceAll(s[1..], pat, rep);
      assert s[1..] == x[1..] + y;
      ReplaceSkipsPlain(x[1..], y, pat, rep);
      assert [x[0]] + (x[1..] + ReplaceAll(y, pat, rep)) == x + ReplaceAll(y, pat, rep);
    }
  }

  /** `s` holds no backtick. */
  predicate Plain(s: string)
  {
    forall k :: 0 <= k < |s| ==> s[k] != '`'
  }

  /** A string with non-space ends is its own `strip()`. */
  lemma StripKeepsUnpadded(s: string)
    requires |s| > 0 && !IsSpace(s[0]) && !IsSpace(s[|s| - 1])
    ensures Strip(s) == s
  {
    assert LeadingSpaces(s) == 0;
    assert TrimStart(s) == s;
    assert TrailingStart(s) == |s|;
  }

  const Fence := "```"

  /** `s` holds three backticks in a row. */
  predicate HasFence(s: string)
  {
    exists i :: 0 <= i && i + 2 < |s| && s[i] == '`' && s[i + 1] == '`' && s[i + 2] == '`'
  }

  /** Removing the fences never starts a string with a character that was
      not at the head of the input, when the input does not start with a
      backtick. */
  lemma RemoveFenceKeepsHead(t: string)
    requires |t| > 0 && t[0] != '`'
    ensures |ReplaceAll(t, Fence, "")| > 0 && ReplaceAll(t, Fence, "")[0] == t[0]
  {
    if |t| >= 3 {
      assert t[..3] != Fence by { assert t[..3][0] == t[0]; }
    }
  }

  /** `s.replace("```", "")` contains no "```": every piece the scan keeps
      before a removed fence ends in a character other than a backtick. */
  lemma {:induction false} RemoveFenceLeavesNone(s: string)
    ensures !HasFence(ReplaceAll(s, Fence, ""))
  {
    var r := ReplaceAll(s, Fence, "");
    if |s| < 3 {
      assert r == s;
    } else if s[..3] == Fence {
      assert r == ReplaceAll(s[3..], Fence, "");
      RemoveFenceLeavesNone(s[3..]);
    } else {
      var rest := ReplaceAll(s[1..], Fence, "");
      assert r == [s[0]] + rest;
      RemoveFenceLeavesNone(s[1..]);
      if s[0] == '`' && |rest| >= 2 {
        // the head of `rest` cannot supply the two backticks a fence at 0 needs
        if s[1] != '`' {
          RemoveFenceKeepsHead(s[1..]);
        } else {
          assert s[2] != '`' by { assert s[..3][2] == s[2]; }
          var t := s[1..];
          if |t| >= 3 {
            assert t[..3] != Fence by { assert t[..3][1] == s[2]; }
            assert rest == [t[0]] + ReplaceAll(t[1..], Fence, "");
            RemoveFenceKeepsHead(t[1..]);
          }
          assert rest[1] == s[2];
        }
      }
      forall i | 0 <= i && i + 2 < |r|
        ensures !(r[i] == '`' && r[i + 1] == '`' && r[i + 2] == '`')
      {
        if i > 0 {
          assert r[i] == rest[i - 1] && r[i + 1] == rest[i] && r[i + 2] == rest[i + 1];
        }
      }
    }
  }

  /** `s.removeprefix(p)`. */
  function RemovePrefix(s: string, p: string): (r: string)
    ensures |p| <= |s| && s[..|p|] == p ==> p + r == s
    ensures !(|p| <= |s| && s[..|p|] == p) ==> r == s
  {
    if |p| <= |s| && s[..|p|] == p then s[|p|..] else s
  }
}
