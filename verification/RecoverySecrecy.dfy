/**
 * What an observer can work out, as deductions: lists of facts each of which is known from
 * the start or follows from earlier ones.  With the public bundle and the share of one
 * holder no deduction reaches the package key or the package; with two shares one does.
 */
module RecoverySecrecy {
  import opened RecoveryTerms
  import opened RecoveryPackage
  import opened RecoveryBundle

  datatype Fact =
    | KnowKey(key: Key)
    | KnowMaterial(material: nat)
    | KnowPayload(payload: Payload)
    | KnowText(text: Plaintext)
    | KnowPackage(package: Package)

  /** One step: opening and sealing under known keys, taking a plaintext apart or putting
      one together, and deriving the key of a pair from two known contributions. */
  ghost predicate Follows(known: set<Fact>, f: Fact) {
    match f
    case KnowKey(k) =>
      KnowText(KeyText(k)) in known
      || (k.PairKey? && KnowMaterial(k.left) in known && KnowMaterial(k.right) in known)
    case KnowMaterial(_) => false
    case KnowPayload(p) =>
      p.Forged? || (KnowKey(p.sealKey) in known && KnowText(p.plaintext) in known)
    case KnowText(t) =>
      (exists p :: KnowPayload(p) in known && p.Sealed? && KnowKey(p.sealKey) in known && p.plaintext == t)
      || (t.KeyText? && KnowKey(t.key) in known)
      || (t.PackageText? && KnowPackage(t.package) in known)
    case KnowPackage(q) => KnowText(PackageText(q)) in known
  }

  /** A deduction from what is known at the start. */
  ghost predicate Deduction(start: iset<Fact>, facts: seq<Fact>) {
    forall i :: 0 <= i < |facts| ==> facts[i] in start || Follows(Before(facts, i), facts[i])
  }

  ghost function Before(facts: seq<Fact>, i: nat): set<Fact>
    requires i <= |facts|
  {
    set k | 0 <= k < i :: facts[k]
  }

  // ---- The observer with one share ----------------------------------------------------

  /** The contributions of a holder. */
  function MaterialsOf(rnd: Randomness, holder: nat): set<nat>
    requires 1 <= holder <= 3
  {
    set c | c in Contributions(rnd, holder) :: c.material
  }

  function OtherMaterials(rnd: Randomness, holder: nat): set<nat>
    requires 1 <= holder <= 3
  {
    if holder == 1 then MaterialsOf(rnd, 2) + MaterialsOf(rnd, 3)
    else if holder == 2 then MaterialsOf(rnd, 1) + MaterialsOf(rnd, 3)
    else MaterialsOf(rnd, 1) + MaterialsOf(rnd, 2)
  }

  /** The payloads of a bundle. */
  function PayloadsOf(b: Bundle): set<Payload> {
    {b.encrypted} + set w | w in b.wrappers :: w.payload
  }

  /** The bundle, one holder's share, and everything the observer makes himself: any other
      random number and any package but the one in question. */
  predicate InOneShare(rnd: Randomness, p: Package, counter: nat, createdAt: nat, holder: nat, f: Fact)
    requires 1 <= holder <= 3
  {
    match f
    case KnowKey(k) => k.PackageKey? && k.n != rnd.packageKey
    case KnowMaterial(m) => m !in OtherMaterials(rnd, holder)
    case KnowPayload(q) => q in PayloadsOf(BundleOf(rnd, p, counter, createdAt))
    case KnowText(_) => false
    case KnowPackage(q) => q != p
  }

  ghost function OneShare(rnd: Randomness, p: Package, counter: nat, createdAt: nat, holder: nat): iset<Fact>
    requires 1 <= holder <= 3
  {
    iset f: Fact | InOneShare(rnd, p, counter, createdAt, holder, f)
  }

  /** The keys that open the bundle. */
  predicate BundleKey(rnd: Randomness, epoch: nat, k: Key) {
    k == PackageKey(rnd.packageKey)
    || (k.PairKey? && k == PairKey(rnd.left.At(k.pair), rnd.right.At(k.pair), rnd.set_, epoch, k.pair))
  }

  /** What may be known without knowing the package or a key that opens the bundle. */
  predicate Harmless(rnd: Randomness, p: Package, holder: nat, f: Fact)
    requires 1 <= holder <= 3
  {
    match f
    case KnowKey(k) => !BundleKey(rnd, p.recoveryEpoch, k)
    case KnowMaterial(m) => m !in OtherMaterials(rnd, holder)
    case KnowPayload(q) => q.Sealed? && !BundleKey(rnd, p.recoveryEpoch, q.sealKey) ==> HarmlessText(rnd, p, q.plaintext)
    case KnowText(t) => HarmlessText(rnd, p, t)
    case KnowPackage(q) => q != p
  }

  predicate HarmlessText(rnd: Randomness, p: Package, t: Plaintext) {
    match t
    case KeyText(k) => !BundleKey(rnd, p.recoveryEpoch, k)
    case PackageText(q) => q != p
  }

  /** Each pair key needs a contribution of a holder other than the one observed. */
  lemma PairNeedsAnother(rnd: Randomness, holder: nat, pair: Pair)
    requires 1 <= holder <= 3
    ensures rnd.left.At(pair) in OtherMaterials(rnd, holder) || rnd.right.At(pair) in OtherMaterials(rnd, holder)
  {
    var l, r := LeftOf(pair), RightOf(pair);
    assert Contribution(pair, rnd.left.At(pair)) in Contributions(rnd, l);
    assert Contribution(pair, rnd.right.At(pair)) in Contributions(rnd, r);
    assert rnd.left.At(pair) in MaterialsOf(rnd, l) && rnd.right.At(pair) in MaterialsOf(rnd, r);
  }

  lemma StepHarmless(rnd: Randomness, p: Package, holder: nat, known: set<Fact>, f: Fact)
    requires 1 <= holder <= 3
    requires forall g :: g in known ==> Harmless(rnd, p, holder, g)
    requires Follows(known, f)
    ensures Harmless(rnd, p, holder, f)
  {
    hide OtherMaterials;
    match f {
      case KnowKey(k) =>
        if k.PairKey? && KnowMaterial(k.left) in known && KnowMaterial(k.right) in known {
          PairNeedsAnother(rnd, holder, k.pair);
          assert Harmless(rnd, p, holder, KnowMaterial(k.left)) && Harmless(rnd, p, holder, KnowMaterial(k.right));
        } else {
          assert Harmless(rnd, p, holder, KnowText(KeyText(k)));
        }
      case KnowMaterial(_) =>
      case KnowPayload(q) =>
      case KnowText(t) =>
        if q :| KnowPayload(q) in known && q.Sealed? && KnowKey(q.sealKey) in known && q.plaintext == t {
          assert Harmless(rnd, p, holder, KnowKey(q.sealKey)) && Harmless(rnd, p, holder, KnowPayload(q));
        }
      case KnowPackage(q) =>
        assert Harmless(rnd, p, holder, KnowText(PackageText(q)));
    }
  }

  lemma StartHarmless(rnd: Randomness, p: Package, counter: nat, createdAt: nat, holder: nat, f: Fact)
    requires 1 <= holder <= 3
    requires f in OneShare(rnd, p, counter, createdAt, holder)
    ensures Harmless(rnd, p, holder, f)
  {
    hide OtherMaterials;
  }

  /** One share is not enough: no deduction reaches the package key or the package. */
  lemma {:induction false} OneShareLearnsNothing(rnd: Randomness, p: Package, counter: nat, createdAt: nat, holder: nat,
                                                 facts: seq<Fact>)
    requires 1 <= holder <= 3
    requires Deduction(OneShare(rnd, p, counter, createdAt, holder), facts)
    ensures forall i :: 0 <= i < |facts| ==> Harmless(rnd, p, holder, facts[i])
    ensures KnowKey(PackageKey(rnd.packageKey)) !in facts && KnowPackage(p) !in facts
  {
    hide Harmless, Follows, OneShare, OtherMaterials;
    if facts != [] {
      var init, last := facts[..|facts| - 1], facts[|facts| - 1];
      forall i | 0 <= i < |init| ensures init[i] in OneShare(rnd, p, counter, createdAt, holder) || Follows(Before(init, i), init[i]) {
        SameBefore(init, facts, i);
        assert facts[i] == init[i];
      }
      OneShareLearnsNothing(rnd, p, counter, createdAt, holder, init);
      if last in OneShare(rnd, p, counter, createdAt, holder) {
        StartHarmless(rnd, p, counter, createdAt, holder, last);
      } else {
        StepHarmless(rnd, p, holder, Before(facts, |facts| - 1), last);
      }
      forall i | 0 <= i < |facts| ensures Harmless(rnd, p, holder, facts[i]) {
        if i < |init| { assert facts[i] == init[i]; }
      }
    }
    SecretsHarmful(rnd, p, holder);
  }

  lemma SecretsHarmful(rnd: Randomness, p: Package, holder: nat)
    requires 1 <= holder <= 3
    ensures !Harmless(rnd, p, holder, KnowKey(PackageKey(rnd.packageKey))) && !Harmless(rnd, p, holder, KnowPackage(p))
  {
  }

  /** One holder's share is really among what the observer starts with, when the holders'
      contributions are pairwise different random numbers. */
  lemma StartsWithTheShare(rnd: Randomness, p: Package, counter: nat, createdAt: nat, holder: nat, c: Contribution)
    requires 1 <= holder <= 3 && MaterialsOf(rnd, holder) !! OtherMaterials(rnd, holder)
    requires c in CreateShare(rnd, p.recoveryEpoch, holder).contributions
    ensures KnowMaterial(c.material) in OneShare(rnd, p, counter, createdAt, holder)
  {
    hide OtherMaterials;
    assert c.material in MaterialsOf(rnd, holder);
  }

  // ---- Two shares --------------------------------------------------------------------

  predicate InTwoShares(rnd: Randomness, p: Package, counter: nat, createdAt: nat, pair: Pair, f: Fact) {
    match f
    case KnowMaterial(m) => m == rnd.left.At(pair) || m == rnd.right.At(pair)
    case KnowPayload(q) => q in PayloadsOf(BundleOf(rnd, p, counter, createdAt))
    case _ => false
  }

  ghost function TwoShares(rnd: Randomness, p: Package, counter: nat, createdAt: nat, pair: Pair): iset<Fact> {
    iset f: Fact | InTwoShares(rnd, p, counter, createdAt, pair, f)
  }

  lemma SameBefore(facts: seq<Fact>, more: seq<Fact>, i: nat)
    requires i <= |facts| <= |more| && forall k :: 0 <= k < i ==> more[k] == facts[k]
    ensures Before(more, i) == Before(facts, i)
  {
    forall g | g in Before(facts, i) ensures g in Before(more, i) {
      var k :| 0 <= k < i && facts[k] == g;
      assert more[k] == g;
    }
    forall g | g in Before(more, i) ensures g in Before(facts, i) {
      var k :| 0 <= k < i && more[k] == g;
      assert facts[k] == g;
    }
  }

  lemma Extend(start: iset<Fact>, facts: seq<Fact>, f: Fact)
    requires Deduction(start, facts)
    requires f in start || Follows(Before(facts, |facts|), f)
    ensures Deduction(start, facts + [f])
    ensures f in Before(facts + [f], |facts + [f]|)
    ensures forall g :: g in Before(facts, |facts|) ==> g in Before(facts + [f], |facts + [f]|)
  {
    hide Follows;
    var more := facts + [f];
    forall i | 0 <= i < |more| ensures more[i] in start || Follows(Before(more, i), more[i]) {
      SameBefore(facts, more, i);
    }
    assert more[|facts|] == f;
    forall g | g in Before(facts, |facts|) ensures g in Before(more, |more|) {
      var k :| 0 <= k < |facts| && facts[k] == g;
      assert more[k] == g;
    }
  }

  lemma Opening(known: set<Fact>, q: Payload)
    requires q.Sealed? && KnowPayload(q) in known && KnowKey(q.sealKey) in known
    ensures Follows(known, KnowText(q.plaintext))
  {
  }

  /** The two contributions of any pair are enough. */
  lemma TwoSharesLearnAll(rnd: Randomness, p: Package, counter: nat, createdAt: nat, pair: Pair) returns (facts: seq<Fact>)
    ensures Deduction(TwoShares(rnd, p, counter, createdAt, pair), facts)
    ensures KnowKey(PackageKey(rnd.packageKey)) in facts && KnowPackage(p) in facts
  {
    hide Deduction, Before;
    var b := BundleOf(rnd, p, counter, createdAt);
    var wrapped := Wrap(rnd, b.envelope, pair).payload;
    assert Wrap(rnd, b.envelope, pair) in b.wrappers;
    var key := PackageKey(rnd.packageKey);
    var start := TwoShares(rnd, p, counter, createdAt, pair);
    facts := [];
    NoFacts(start);
    var order := [KnowMaterial(rnd.left.At(pair)), KnowMaterial(rnd.right.At(pair)), KnowPayload(wrapped), KnowPayload(b.encrypted)];
    Extend(start, facts, order[0]);
    facts := facts + [order[0]];
    Extend(start, facts, order[1]);
    facts := facts + [order[1]];
    Extend(start, facts, order[2]);
    facts := facts + [order[2]];
    Extend(start, facts, order[3]);
    facts := facts + [order[3]];
    Extend(start, facts, KnowKey(wrapped.sealKey));
    facts := facts + [KnowKey(wrapped.sealKey)];
    Opening(Before(facts, |facts|), wrapped);
    Extend(start, facts, KnowText(KeyText(key)));
    facts := facts + [KnowText(KeyText(key))];
    Extend(start, facts, KnowKey(key));
    facts := facts + [KnowKey(key)];
    Opening(Before(facts, |facts|), b.encrypted);
    Extend(start, facts, KnowText(PackageText(p)));
    facts := facts + [KnowText(PackageText(p))];
    Extend(start, facts, KnowPackage(p));
    facts := facts + [KnowPackage(p)];
  }

  lemma NoFacts(start: iset<Fact>)
    ensures Deduction(start, [])
  {
  }
}
