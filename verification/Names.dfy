/** Dotted names. */
module Names {
  predicate HasSuffix(s: string, suffix: string) {
    |suffix| <= |s| && s[|s| - |suffix|..] == suffix
  }

  predicate DotFree(s: string) {
    forall i :: 0 <= i < |s| ==> s[i] != '.'
  }

  predicate LastDot(s: string, i: nat) {
    i < |s| && s[i] == '.' && forall k :: i < k < |s| ==> s[k] != '.'
  }

  lemma LastDotUnique(s: string, i: nat, j: nat)
    requires LastDot(s, i) && LastDot(s, j)
    ensures i == j
  {}

  lemma LastDotOf(base: string, n: string)
    requires DotFree(n)
    ensures LastDot(base + "." + n, |base|)
    ensures (base + "." + n)[..|base|] == base && (base + "." + n)[|base| + 1..] == n
  {
    var s := base + "." + n;
    forall k | |base| < k < |s| ensures s[k] != '.' {
      assert s[k] == n[k - |base| - 1];
    }
  }

  /** Asking for the suffix `.m` asks for the part after the last dot. */
  lemma SuffixIff(base: string, n: string, m: string)
    requires DotFree(n) && DotFree(m)
    ensures HasSuffix(base + "." + n, "." + m) <==> n == m
  {
    var s, t := base + "." + n, "." + m;
    LastDotOf(base, n);
    if HasSuffix(s, t) {
      var front := s[..|s| - |t|];
      assert s == front + "." + m;
      LastDotOf(front, m);
      LastDotUnique(s, |base|, |front|);
    } else {
      assert s[|base|..] == "." + n;
    }
  }

  /** The base and the last part of a dotted name are determined by it. */
  lemma DottedInjective(base: string, n: string, base': string, n': string)
    requires DotFree(n) && DotFree(n') && base + "." + n == base' + "." + n'
    ensures base == base' && n == n'
  {
    LastDotOf(base, n);
    LastDotOf(base', n');
    LastDotUnique(base + "." + n, |base|, |base'|);
  }
}
