/** Sums over finite sets of names. */
module SetSum {
  ghost function Sum(keys: set<string>, f: string -> int): (s: int)
    ensures (forall k :: k in keys ==> f(k) >= 0) ==> s >= 0
  {
    if keys == {} then 0 else var k :| k in keys; f(k) + Sum(keys - {k}, f)
  }

  /** Any element may be taken first. */
  lemma {:induction false} Split(keys: set<string>, f: string -> int, k: string)
    requires k in keys
    ensures Sum(keys, f) == f(k) + Sum(keys - {k}, f)
  {
    var m :| m in keys && Sum(keys, f) == f(m) + Sum(keys - {m}, f);
    if m != k {
      Split(keys - {m}, f, k);
      Split(keys - {k}, f, m);
      assert keys - {m} - {k} == keys - {k} - {m};
    }
  }
}
