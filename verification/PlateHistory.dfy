/** Filtering and de-duplicating recognised plates. */
module PlateHistory {

  const HISTORY: nat := 30
  const WORD: nat := 0x1_0000_0000

  /** The recent plates and the 32-bit plate counter, and, as history, the plates
      logged since the last restart and the number logged altogether. */
  datatype Plates = Plates(recent: seq<string>, total: nat, logged: seq<string>, ever: nat)

  const NONE := Plates([], 0, [], 0)

  predicate IsPlate(lp: string) { lp != "" && lp[0] != '0' }

  /** The list of recent plates after one more. */
  function Remember(recent: seq<string>, lp: string): seq<string> {
    var longer := recent + [lp];
    if |longer| > HISTORY then longer[1..] else longer
  }

  /** A result is logged if it is a plate that is not among the recent ones. */
  function LogOne(p: Plates, lp: string): Plates {
    if IsPlate(lp) && lp !in p.recent then
      Plates(Remember(p.recent, lp), (p.total + 1) % WORD, p.logged + [lp], p.ever + 1)
    else p
  }

  function LogAll(p: Plates, rs: seq<string>): Plates {
    if rs == [] then p else LogOne(LogAll(p, rs[..|rs| - 1]), rs[|rs| - 1])
  }

  /** After a restart; the counter is kept. */
  function Forget(p: Plates): Plates {
    p.(recent := [], logged := [])
  }

  /** The last min(HISTORY, n) of n plates. */
  function Last(logged: seq<string>): seq<string> {
    if |logged| <= HISTORY then logged else logged[|logged| - HISTORY..]
  }

  /** Equal plates are more than HISTORY positions apart. */
  predicate Spaced(logged: seq<string>) {
    forall i, j :: 0 <= i < j < |logged| && logged[i] == logged[j] ==> j - i > HISTORY
  }

  /** The list of recent plates is always the last ones logged since the last
      restart; equal plates are far apart; only plates are logged; and the counter
      counts them modulo 2^32. */
  predicate Consistent(p: Plates) {
    && p.recent == Last(p.logged)
    && Spaced(p.logged)
    && (forall i :: 0 <= i < |p.logged| ==> IsPlate(p.logged[i]))
    && p.total == p.ever % WORD
  }

  lemma RememberKeepsLast(logged: seq<string>, lp: string)
    ensures Remember(Last(logged), lp) == Last(logged + [lp])
  {
  }

  lemma NewPlatesAreSpaced(logged: seq<string>, lp: string)
    requires Spaced(logged) && lp !in Last(logged)
    ensures Spaced(logged + [lp])
  {
    var n := |logged|;
    forall i | 0 <= i < n && n - HISTORY <= i ensures logged[i] in Last(logged) {
      assert logged[i] == Last(logged)[if n <= HISTORY then i else i - (n - HISTORY)];
    }
  }

  lemma CountingOne(total: nat, ever: nat)
    requires total == ever % WORD
    ensures (total + 1) % WORD == (ever + 1) % WORD
  {
  }

  lemma NewPlateKeepsConsistency(p: Plates, lp: string)
    requires Consistent(p) && IsPlate(lp) && lp !in p.recent
    ensures Consistent(Plates(Remember(p.recent, lp), (p.total + 1) % WORD, p.logged + [lp], p.ever + 1))
  {
    RememberKeepsLast(p.logged, lp);
    NewPlatesAreSpaced(p.logged, lp);
    CountingOne(p.total, p.ever);
  }

  lemma LoggingOneKeepsConsistency(p: Plates, lp: string)
    requires Consistent(p)
    ensures Consistent(LogOne(p, lp))
  {
    if IsPlate(lp) && lp !in p.recent {
      NewPlateKeepsConsistency(p, lp);
    }
  }

  lemma {:induction false} LoggingKeepsConsistency(p: Plates, rs: seq<string>)
    requires Consistent(p)
    ensures Consistent(LogAll(p, rs))
  {
    if rs != [] {
      LoggingKeepsConsistency(p, rs[..|rs| - 1]);
      LoggingOneKeepsConsistency(LogAll(p, rs[..|rs| - 1]), rs[|rs| - 1]);
    }
  }
}
