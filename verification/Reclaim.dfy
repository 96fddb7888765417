/** The reclamation statement every expiring store issues:
    `DELETE ... WHERE expires_at IS NOT NULL AND expires_at < $1`. */
module Reclaim {
  import opened Prelude
  import Time

  /** The keys the statement deletes. */
  function Doomed<K, R>(table: map<K, R>, expiry: R -> Option<int>, cutoff: int): set<K>
  {
    set k | k in table && expiry(table[k]).Some? && expiry(table[k]).value < cutoff
  }

  function Reclaimed<K, R>(table: map<K, R>, expiry: R -> Option<int>, cutoff: int): map<K, R>
  {
    table - Doomed(table, expiry, cutoff)
  }

  /** The affected-row count is the number of rows lost, and nothing else changes. */
  lemma Conservation<K, R>(table: map<K, R>, gone: set<K>)
    requires gone <= table.Keys
    ensures |table - gone| == |table| - |gone|
    ensures forall k :: k in table - gone <==> k in table && k !in gone
    ensures forall k :: k in table - gone ==> (table - gone)[k] == table[k]
  {
    var kept := table - gone;
    assert kept.Keys == table.Keys - gone;
    assert |kept| == |kept.Keys| && |table| == |table.Keys|;
  }

  /** Two reclaims in a row are one at the larger cutoff, and their counts add. */
  lemma Composition<K, R>(table: map<K, R>, expiry: R -> Option<int>, first: int, second: int)
    ensures var larger := if first < second then second else first;
            && Reclaimed(Reclaimed(table, expiry, first), expiry, second) == Reclaimed(table, expiry, larger)
            && |Doomed(table, expiry, first)| + |Doomed(Reclaimed(table, expiry, first), expiry, second)|
               == |Doomed(table, expiry, larger)|
  {
    var larger := if first < second then second else first;
    var kept := Reclaimed(table, expiry, first);
    var a, b := Doomed(table, expiry, first), Doomed(kept, expiry, second);
    assert a + b == Doomed(table, expiry, larger);
    assert a !! b;
    assert Reclaimed(kept, expiry, second) == Reclaimed(table, expiry, larger);
  }

  /** Under any monotone rounding of column and cutoff alike, a row goes only if its
      exact expiry lies before the exact cutoff, and it does go once the two are
      told apart by the rounding. */
  lemma NeverEarly<K, R>(table: map<K, R>, exact: R -> Option<int>, column: R -> Option<int>,
                         round: int -> int, cutoff: int, k: K)
    requires Time.Monotone(round)
    requires k in table
    requires column(table[k]) == match exact(table[k]) case None => None case Some(t) => Some(round(t))
    ensures k in Reclaimed(table, column, round(cutoff))
            <==> exact(table[k]).None? || round(cutoff) <= round(exact(table[k]).value)
    ensures k !in Reclaimed(table, column, round(cutoff))
            ==> exact(table[k]).Some? && exact(table[k]).value < cutoff
  {
    var e := exact(table[k]);
    if e.Some? && cutoff <= e.value {
      assert round(cutoff) <= round(e.value);
    }
  }
}
