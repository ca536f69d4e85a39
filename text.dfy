/** String operations the two scripts rely on: Python's str.strip(),
    str.lower() (ASCII letters), substring and suffix tests, the prefix slice
    text[:n], and the regular-expression substitution that removes Markdown
    code fences from a model's reply. */
module Text {

  /** The characters for which Python's str.isspace() holds. */
  predicate IsSpace(c: char) {
    ('\t' <= c <= '\r') || ('\U{1c}' <= c <= ' ') || c == '\U{85}' || c == '\U{a0}'
    || c == '\U{1680}' || ('\U{2000}' <= c <= '\U{200a}') || c == '\U{2028}' || c == '\U{2029}'
    || c == '\U{202f}' || c == '\U{205f}' || c == '\U{3000}'
  }

  predicate AllSpace(s: string) {
    forall k :: 0 <= k < |s| ==> IsSpace(s[k])
  }

  /** The end of the whitespace run of s that starts at i. */
  function SpaceRunEnd(s: string, i: nat): (n: nat)
    requires i <= |s|
    ensures i <= n <= |s|
    ensures forall k :: i <= k < n ==> IsSpace(s[k])
    ensures n == |s| || !IsSpace(s[n])
    decreases |s| - i
  {
    if i < |s| && IsSpace(s[i]) then SpaceRunEnd(s, i + 1) else i
  }

  /** The start of the whitespace run with which the first j characters of s end. */
  function SpaceRunStart(s: string, j: nat): (n: nat)
    requires j <= |s|
    ensures n <= j
    ensures forall k :: n <= k < j ==> IsSpace(s[k])
    ensures n == 0 || !IsSpace(s[n - 1])
  {
    if 0 < j && IsSpace(s[j - 1]) then SpaceRunStart(s, j - 1) else j
  }

  /** Removes leading whitespace: what is left is the end of s and does
      not start with whitespace, and everything removed was whitespace. */
  function StripLeft(s: string): (r: string)
    ensures |r| <= |s| && r == s[|s| - |r|..]
    ensures r == [] || !IsSpace(r[0])
    ensures forall k :: 0 <= k < |s| - |r| ==> IsSpace(s[k])
  {
    s[SpaceRunEnd(s, 0)..]
  }

  /** Removes trailing whitespace: what is left is a prefix of s that does not
      end with whitespace, and everything removed was whitespace. */
  function StripRight(s: string): (r: string)
    ensures r <= s
    ensures r == [] || !IsSpace(r[|r| - 1])
    ensures forall k :: |r| <= k < |s| ==> IsSpace(s[k])
  {
    s[..SpaceRunStart(s, |s|)]
  }

  /** Python's s.strip() with no argument. */
  function Strip(s: string): (r: string)
    ensures r == [] || (!IsSpace(r[0]) && !IsSpace(r[|r| - 1]))
  {
    StripRight(StripLeft(s))
  }

  lemma StripEmptyIffBlank(s: string)
    ensures Strip(s) == [] <==> AllSpace(s)
  {
    var l := StripLeft(s);
    if Strip(s) == [] {
      // l is all whitespace and does not start with whitespace, so it is empty
      assert l == [];
    } else {
      assert l != [] && !IsSpace(l[0]) && l[0] == s[|s| - |l|..][0];
    }
  }

  /** Stripping twice is the same as stripping once. */
  lemma StripIdempotent(s: string)
    ensures Strip(Strip(s)) == Strip(s)
  {
    var r := Strip(s);
    if r != [] {
      assert StripLeft(r) == r;
      assert StripRight(r) == r;
    }
  }

  /** Python's c.lower() on ASCII letters. */
  function LowerChar(c: char): char {
    if 'A' <= c <= 'Z' then (c as int + 32) as char else c
  }

  function Lower(s: string): (r: string)
    ensures |r| == |s|
    ensures forall k :: 0 <= k < |s| ==> r[k] == LowerChar(s[k])
  {
    if s == [] then [] else [LowerChar(s[0])] + Lower(s[1..])
  }

  /** Python's `sub in s`. */
  function Contains(s: string, sub: string): bool
    decreases |s|
  {
    sub <= s || (s != [] && Contains(s[1..], sub))
  }

  /** sub occurs in s starting at index i. */
  predicate OccursAt(s: string, sub: string, i: nat) {
    i + |sub| <= |s| && s[i..i + |sub|] == sub
  }

  /** Contains holds whenever sub occurs at some position of s;
      ContainsOccurrence is the converse. */
  lemma {:induction false} ContainsAt(s: string, sub: string, i: nat)
    requires i + |sub| <= |s| && s[i..i + |sub|] == sub
    ensures Contains(s, sub)
    decreases i
  {
    if i == 0 {
      assert sub <= s;
    } else {
      assert s[1..][i - 1..i - 1 + |sub|] == s[i..i + |sub|];
      ContainsAt(s[1..], sub, i - 1);
    }
  }

  /** When Contains holds, sub occurs at some position of s. */
  lemma {:induction false} ContainsOccurrence(s: string, sub: string)
    requires Contains(s, sub)
    ensures exists i: nat :: OccursAt(s, sub, i)
    decreases |s|
  {
    if sub <= s {
      assert OccursAt(s, sub, 0);
    } else {
      ContainsOccurrence(s[1..], sub);
      var i: nat :| OccursAt(s[1..], sub, i);
      assert s[i + 1..i + 1 + |sub|] == s[1..][i..i + |sub|];
      assert OccursAt(s, sub, i + 1);
    }
  }

  /** A string in which the first character of sub never occurs does not
      contain sub. */
  lemma {:induction false} NoSubstring(s: string, sub: string)
    requires sub != [] && forall k :: 0 <= k < |s| ==> s[k] != sub[0]
    ensures !Contains(s, sub)
    decreases |s|
  {
    if s != [] {
      assert !(sub <= s) by { assert s[0] != sub[0]; }
      NoSubstring(s[1..], sub);
    }
  }

  /** Python's s.endswith(suffix). */
  predicate EndsWith(s: string, suffix: string) {
    |suffix| <= |s| && s[|s| - |suffix|..] == suffix
  }

  /** filename.lower().endswith(".pdf") */
  predicate IsPdf(name: string) {
    EndsWith(Lower(name), ".pdf")
  }

  /** Python's s[:n]: the first min(|s|, n) characters. */
  function Take(s: string, n: nat): (r: string)
    ensures |r| == if |s| <= n then |s| else n
    ensures r <= s
  {
    if |s| <= n then s else s[..n]
  }

  lemma TakeIdentityIffShort(s: string, n: nat)
    ensures Take(s, n) == s <==> |s| <= n
  {
  }

  const Fence: string := "```"
  const JsonFence: string := "```json"

  /** re.sub(r"```json|```", "", s): scanning left to right, at each position
      the longer alternative is tried first and a match is deleted; scanning
      resumes after it. */
  function StripFences(s: string): string
    decreases |s|
  {
    if JsonFence <= s then StripFences(s[|JsonFence|..])
    else if Fence <= s then StripFences(s[|Fence|..])
    else if s == [] then []
    else [s[0]] + StripFences(s[1..])
  }

  /** Text without a backtick passes through the substitution unchanged. */
  lemma {:induction false} StripFencesNoBacktick(s: string)
    requires forall k :: 0 <= k < |s| ==> s[k] != '`'
    ensures StripFences(s) == s
  {
    if s != [] {
      assert !(Fence <= s) by { assert s[0] != Fence[0]; }
      assert !(JsonFence <= s) by { assert s[0] != JsonFence[0]; }
      StripFencesNoBacktick(s[1..]);
    }
  }

  /** After the substitution no fence is left: deleting a match never brings
      three backticks together, because a backtick that is kept is never
      directly followed by a deleted fence. */
  lemma {:induction false} StripFencesRemovesAll(s: string)
    ensures !Contains(StripFences(s), Fence)
    decreases |s|
  {
    if JsonFence <= s {
      StripFencesRemovesAll(s[|JsonFence|..]);
    } else if Fence <= s {
      StripFencesRemovesAll(s[|Fence|..]);
    } else if s != [] {
      var t := s[1..];
      StripFencesRemovesAll(t);
      var r := StripFences(t);
      assert StripFences(s) == [s[0]] + r;
      if s[0] == '`' {
        // s does not start with a fence, so neither s[1..] nor s[2..] does
        // and the next kept character is not a backtick pair.
        assert !(Fence <= t);
        assert !(JsonFence <= t);
        if t != [] {
          assert r == [t[0]] + StripFences(t[1..]);
          if t[0] == '`' {
            var u := t[1..];
            assert u == [] || u[0] != '`';
            if u != [] {
              assert !(Fence <= u) && !(JsonFence <= u);
              assert StripFences(u) == [u[0]] + StripFences(u[1..]);
            }
            assert !(Fence <= [s[0]] + r);
          } else {
            assert !(Fence <= [s[0]] + r);
          }
        } else {
          assert !(Fence <= [s[0]] + r);
        }
      } else {
        assert !(Fence <= [s[0]] + r);
      }
      assert ([s[0]] + r)[1..] == r;
    }
  }
}
