/** Where the controller's images go, and why moving them about never loses track
    of one. */
module ImageLedger {

  /** Images are numbered in the order in which they are segmented. */
  type ImageId = nat

  /** Why a segmented image was given up. */
  datatype Loss = RepeatedError | SplitLowerHalf | SplitSendFailed | Restarted

  /** The waiting bank, and, as history, the images delivered and lost so far and
      the number of images segmented. */
  datatype Ledger = Ledger(waiting: seq<ImageId>, delivered: seq<ImageId>, lost: map<ImageId, Loss>, segmented: nat)

  const EMPTY := Ledger([], [], map[], 0)

  function NewImages(first: nat, n: nat): (ids: seq<ImageId>)
    ensures |ids| == n && forall k :: 0 <= k < n ==> ids[k] == first + k
  {
    seq(n, k requires 0 <= k < n => first + k)
  }

  /** n more images are segmented. */
  function Add(l: Ledger, n: nat): Ledger {
    l.(waiting := l.waiting + NewImages(l.segmented, n), segmented := l.segmented + n)
  }

  /** The first n waiting images are given up. */
  function Lose(l: Ledger, n: nat, why: Loss): Ledger
    requires n <= |l.waiting|
  {
    l.(waiting := l.waiting[n..], lost := l.lost + map id | id in l.waiting[..n] :: why)
  }

  function LoseAll(l: Ledger, why: Loss): (k: Ledger)
    ensures k.waiting == [] && k.delivered == l.delivered && k.segmented == l.segmented
  {
    Lose(l, |l.waiting|, why)
  }

  /** All waiting images are delivered. */
  function Deliver(l: Ledger): Ledger {
    l.(waiting := [], delivered := l.delivered + l.waiting)
  }

  predicate Increasing(s: seq<nat>) {
    forall i, j :: 0 <= i < j < |s| ==> s[i] < s[j]
  }

  /** Every image segmented so far is waiting, delivered or lost, and only one of
      these.  Images are delivered in the order in which they were segmented, none
      twice, and every waiting image comes after every delivered one. */
  ghost predicate Conserved(l: Ledger) {
    && Increasing(l.delivered + l.waiting)
    && (forall id :: id in l.delivered + l.waiting ==> id < l.segmented && id !in l.lost)
    && (forall id :: id in l.lost ==> id < l.segmented)
    && (forall id: nat :: id < l.segmented ==> id in l.delivered + l.waiting || id in l.lost)
  }

  /** Fates are final: what was delivered stays delivered, in order, and what was
      lost stays lost for the same reason. */
  predicate FatesExtended(l: Ledger, k: Ledger) {
    && l.delivered <= k.delivered && l.lost.Keys <= k.lost.Keys && l.segmented <= k.segmented
    && forall id :: id in l.lost ==> k.lost[id] == l.lost[id]
  }

  /** Both at once. */
  ghost predicate Evolves(l: Ledger, k: Ledger) {
    Conserved(l) ==> Conserved(k) && FatesExtended(l, k)
  }

  /** Cutting a piece out of an increasing sequence. */
  lemma CuttingOut(a: seq<nat>, b: seq<nat>, c: seq<nat>)
    requires Increasing(a + b + c)
    ensures Increasing(a + c)
    ensures forall x :: x in a + c ==> x in a + b + c && x !in b
    ensures forall x :: x in a + b + c ==> x in a + c || x in b
    ensures forall x :: x in b ==> x in a + b + c
  {
    var all, rest := a + b + c, a + c;
    assert forall i :: 0 <= i < |rest| ==> rest[i] == all[if i < |a| then i else i + |b|];
    assert forall g :: 0 <= g < |b| ==> b[g] == all[|a| + g];
    forall i, g | 0 <= i < |rest| && 0 <= g < |b| ensures rest[i] != b[g] {
      var k := if i < |a| then i else i + |b|;
      assert all[k] == rest[i] && all[|a| + g] == b[g] && k != |a| + g;
    }
  }

  lemma LosingConserves(l: Ledger, n: nat, why: Loss)
    requires n <= |l.waiting|
    ensures Evolves(l, Lose(l, n, why))
  {
    if Conserved(l) {
      assert l.delivered + l.waiting[..n] + l.waiting[n..] == l.delivered + l.waiting;
      CuttingOut(l.delivered, l.waiting[..n], l.waiting[n..]);
    }
  }

  lemma AddingConserves(l: Ledger, n: nat)
    ensures Evolves(l, Add(l, n))
  {
    if Conserved(l) {
      var ids := NewImages(l.segmented, n);
      var before, all := l.delivered + l.waiting, l.delivered + (l.waiting + ids);
      assert all == before + ids;
      forall i | 0 <= i < |before| ensures before[i] < l.segmented {
        assert before[i] in before;
      }
      forall id: nat | l.segmented <= id < l.segmented + n ensures id in all {
        assert ids[id - l.segmented] == id;
      }
    }
  }

  lemma DeliveringConserves(l: Ledger)
    ensures Evolves(l, Deliver(l))
  {
    assert l.delivered + l.waiting + [] == l.delivered + l.waiting;
  }

  lemma FatesExtendedTransitive(l: Ledger, k: Ledger, m: Ledger)
    requires FatesExtended(l, k) && FatesExtended(k, m)
    ensures FatesExtended(l, m)
  {
    forall id | id in l.lost ensures m.lost[id] == l.lost[id] {
      assert id in k.lost;
    }
  }
}
