/** Text helpers shared by the stores. */
module Text {
  /** Go's unicode.IsSpace. */
  predicate IsSpace(c: char) {
    || c == ' ' || c == '\t' || c == '\n' || c == '\r' || c == '\U{000b}' || c == '\U{000c}'
    || c == '\U{0085}' || c == '\U{00a0}' || c == '\U{1680}' || '\U{2000}' <= c <= '\U{200a}'
    || c == '\U{2028}' || c == '\U{2029}' || c == '\U{202f}' || c == '\U{205f}' || c == '\U{3000}'
  }

  /** strings.TrimSpace. */
  function Trim(s: string): string
    decreases |s|
  {
    if s == "" then ""
    else if IsSpace(s[0]) then Trim(s[1..])
    else if IsSpace(s[|s| - 1]) then Trim(s[..|s| - 1])
    else s
  }

  /** All white space outside of s[i..j]. */
  predicate Around(s: string, i: nat, j: nat) {
    i <= j <= |s| && forall k | 0 <= k < |s| && (k < i || j <= k) :: IsSpace(s[k])
  }

  lemma AroundLeft(s: string, i: nat, j: nat)
    requires s != "" && IsSpace(s[0]) && Around(s[1..], i, j)
    ensures Around(s, i + 1, j + 1) && s[i + 1..j + 1] == s[1..][i..j]
  {
    forall k | 0 <= k < |s| && (k < i + 1 || j + 1 <= k) ensures IsSpace(s[k]) {
      assert k > 0 ==> s[k] == s[1..][k - 1];
    }
    assert |s[i + 1..j + 1]| == j - i == |s[1..][i..j]|;
    forall n | 0 <= n < j - i ensures s[i + 1..j + 1][n] == s[1..][i..j][n] {
      assert s[1..][i..j][n] == s[1..][i + n] == s[i + n + 1];
      assert s[i + 1..j + 1][n] == s[i + 1 + n];
    }
  }

  lemma AroundRight(s: string, i: nat, j: nat)
    requires s != "" && IsSpace(s[|s| - 1]) && Around(s[..|s| - 1], i, j)
    ensures Around(s, i, j) && s[i..j] == s[..|s| - 1][i..j]
  {
    forall k | 0 <= k < |s| && (k < i || j <= k) ensures IsSpace(s[k]) {
      assert k < |s| - 1 ==> s[k] == s[..|s| - 1][k];
    }
    assert s[i..j] == s[..|s| - 1][i..j];
  }

  /** Trimming takes off exactly the white space around the text. */
  lemma {:induction false} TrimExact(s: string) returns (i: nat, j: nat)
    ensures Around(s, i, j) && Trim(s) == s[i..j]
    ensures Trim(s) != "" ==> !IsSpace(Trim(s)[0]) && !IsSpace(Trim(s)[|Trim(s)| - 1])
    decreases |s|
  {
    i, j := 0, |s|;
    if s != "" && IsSpace(s[0]) {
      i, j := TrimExact(s[1..]);
      AroundLeft(s, i, j);
      i, j := i + 1, j + 1;
    } else if s != "" && IsSpace(s[|s| - 1]) {
      i, j := TrimExact(s[..|s| - 1]);
      AroundRight(s, i, j);
    }
  }
}
