/**
 * Exact two-of-three recovery: the package key is wrapped once per pair of holders, under a
 * key that both holders' contributions for that pair give.
 */
module RecoveryBundle {
  import opened Wrappers
  import opened RecoveryTerms
  import opened RecoveryPackage

  // ---- Pairs and holders --------------------------------------------------------------

  function LeftOf(p: Pair): nat { match p case P12 => 1 case P13 => 1 case P23 => 2 }
  function RightOf(p: Pair): nat { match p case P12 => 2 case P13 => 3 case P23 => 3 }

  function PairsFor(holder: nat): seq<Pair>
    requires 1 <= holder <= 3
  {
    if holder == 1 then [P12, P13] else if holder == 2 then [P12, P23] else [P13, P23]
  }

  function PairOf(left: nat, right: nat): Pair
    requires 1 <= left < right <= 3
  {
    if right == 2 then P12 else if left == 1 then P13 else P23
  }

  // ---- Shares -------------------------------------------------------------------------

  /** What the random source supplies for one bundle: the set identifier, the package key,
      the initialization vectors and the six contributions, by pair. */
  datatype Randomness = Randomness(
    set_: nat, packageKey: nat, packageIv: nat, wrapperIvs: ByPair, left: ByPair, right: ByPair)

  /** One number per pair. */
  datatype ByPair = ByPair(p12: nat, p13: nat, p23: nat) {
    function At(p: Pair): nat { match p case P12 => p12 case P13 => p13 case P23 => p23 }
  }

  function MaterialFor(rnd: Randomness, holder: nat, p: Pair): nat {
    if holder == LeftOf(p) then rnd.left.At(p) else rnd.right.At(p)
  }

  function Contributions(rnd: Randomness, holder: nat): seq<Contribution>
    requires 1 <= holder <= 3
  {
    var ps := PairsFor(holder);
    [Contribution(ps[0], MaterialFor(rnd, holder, ps[0])), Contribution(ps[1], MaterialFor(rnd, holder, ps[1]))]
  }

  function CreateShare(rnd: Randomness, epoch: nat, holder: nat): Share
    requires 1 <= holder <= 3
  {
    var cs := Contributions(rnd, holder);
    Share(SHARE_FORMAT, SHARING_SUITE, rnd.set_, epoch, holder, cs, ShareChecksum(SHARING_SUITE, rnd.set_, epoch, holder, cs))
  }

  function ValidateShare(s: Share): Option<Error> {
    if s.format != SHARE_FORMAT || s.sharing != SHARING_SUITE || !(1 <= s.holder <= 3) then Some(ShareInvalid)
    else if |s.contributions| != 2 || s.contributions[0].pair != PairsFor(s.holder)[0]
            || s.contributions[1].pair != PairsFor(s.holder)[1] then Some(ShareInvalid)
    else if s.set_ == 0 || !PositiveUInt64(s.epoch) then Some(ShareInvalid)
    else if s.checksum != ShareChecksum(s.sharing, s.set_, s.epoch, s.holder, s.contributions) then Some(ShareChecksumMismatch)
    else None
  }

  /** The contribution of a valid share to a pair that includes its holder. */
  function ContributionFor(s: Share, p: Pair): nat
    requires ValidateShare(s).None? && (s.holder == LeftOf(p) || s.holder == RightOf(p))
  {
    if s.contributions[0].pair == p then s.contributions[0].material else s.contributions[1].material
  }

  // ---- Bundles ------------------------------------------------------------------------

  function PackageAadOf(e: Envelope): Aad {
    PackageAad(e.format, e.encryption, e.sharing, e.set_, e.epoch, e.counter, e.createdAt)
  }

  function WrapperAadOf(e: Envelope, p: Pair): Aad {
    WrapperAad(e.sharing, e.set_, e.epoch, e.counter, e.ciphertextHash, p)
  }

  predicate EnvelopeValid(e: Envelope) {
    e.set_ != 0 && PositiveUInt64(e.epoch) && PositiveUInt64(e.counter) && PositiveUInt64(e.createdAt)
    && e.format == PACKAGE_FORMAT && e.encryption == ENCRYPTION_SUITE && e.sharing == SHARING_SUITE
  }

  /** Wrapped keys are 32 bytes long. */
  predicate KeyLength(p: Payload) {
    if p.Sealed? then p.plaintext.KeyText? else p.length == 32
  }

  function WrapperFault(w: KeyWrapper, p: Pair): Option<Error> {
    if w.pair != p || !KeyLength(w.payload) then Some(WrapperSetInvalid)
    else if w.hash != WrapperHash(p, w.payload) then Some(WrapperHashMismatch)
    else None
  }

  /** The public checks of a bundle. */
  function BundleFault(b: Bundle): Option<Error> {
    if b.format != BUNDLE_FORMAT then Some(BundleFormatInvalid)
    else if !EnvelopeValid(b.envelope) then Some(SuiteUnsupported)
    else if b.envelope.ciphertextHash != PayloadHash(b.encrypted) then Some(CiphertextHashMismatch)
    else if |b.wrappers| != 3 then Some(WrapperSetInvalid)
    else if WrapperFault(b.wrappers[0], P12).Some? then WrapperFault(b.wrappers[0], P12)
    else if WrapperFault(b.wrappers[1], P13).Some? then WrapperFault(b.wrappers[1], P13)
    else WrapperFault(b.wrappers[2], P23)
  }

  /** The key two contributions of one set and epoch give for a pair. */
  function PairKeyOf(e: Envelope, p: Pair, left: nat, right: nat): Key {
    PairKey(left, right, e.set_, e.epoch, p)
  }

  function Wrap(rnd: Randomness, e: Envelope, p: Pair): KeyWrapper {
    var key := PairKeyOf(e, p, rnd.left.At(p), rnd.right.At(p));
    var payload := Sealed(rnd.wrapperIvs.At(p), key, WrapperAadOf(e, p), KeyText(PackageKey(rnd.packageKey)));
    KeyWrapper(p, payload, WrapperHash(p, payload))
  }

  datatype Created = Created(bundle: Bundle, shares: seq<Share>)

  function EnvelopeFor(rnd: Randomness, epoch: nat, counter: nat, createdAt: nat, hash: Digest): Envelope {
    Envelope(PACKAGE_FORMAT, ENCRYPTION_SUITE, SHARING_SUITE, rnd.set_, epoch, counter, createdAt, hash)
  }

  function EncryptedPackage(rnd: Randomness, p: Package, counter: nat, createdAt: nat): Payload {
    Sealed(rnd.packageIv, PackageKey(rnd.packageKey),
           PackageAadOf(EnvelopeFor(rnd, p.recoveryEpoch, counter, createdAt, Value(0))), PackageText(p))
  }

  function BundleOf(rnd: Randomness, p: Package, counter: nat, createdAt: nat): Bundle {
    var encrypted := EncryptedPackage(rnd, p, counter, createdAt);
    var envelope := EnvelopeFor(rnd, p.recoveryEpoch, counter, createdAt, PayloadHash(encrypted));
    Bundle(BUNDLE_FORMAT, envelope, encrypted, [Wrap(rnd, envelope, P12), Wrap(rnd, envelope, P13), Wrap(rnd, envelope, P23)])
  }

  function CreateBundle(derive: Derivation, p: Package, counter: nat, createdAt: nat, rnd: Randomness): Result<Created> {
    match ValidatePackage(derive, p)
    case Err(e) => Err(e)
    case Ok(q) =>
      if rnd.set_ == 0 || !PositiveUInt64(counter) || !PositiveUInt64(createdAt) then Err(FieldInvalid)
      else
        var bundle := BundleOf(rnd, q, counter, createdAt);
        if BundleFault(bundle).Some? then Err(BundleFault(bundle).value)
        else
          Ok(Created(bundle, [CreateShare(rnd, q.recoveryEpoch, 1), CreateShare(rnd, q.recoveryEpoch, 2), CreateShare(rnd, q.recoveryEpoch, 3)]))
  }

  // ---- Restoring ----------------------------------------------------------------------

  datatype Floor = Floor(epoch: nat, counter: nat)

  function FloorFault(e: Envelope, floor: Option<Floor>): Option<Error> {
    if floor.None? then None
    else if !PositiveUInt64(floor.value.epoch) || !PositiveUInt64(floor.value.counter) then Some(FieldInvalid)
    else if e.epoch < floor.value.epoch || (e.epoch == floor.value.epoch && e.counter < floor.value.counter) then Some(RollbackRejected)
    else None
  }

  datatype Selected = Selected(pair: Pair, left: Share, right: Share)

  /** Exactly two valid shares of different holders, ordered by holder. */
  function SelectPair(shares: seq<Share>): (r: Result<Selected>)
    ensures r.Ok? ==>
      ValidateShare(r.value.left).None? && ValidateShare(r.value.right).None?
      && r.value.left.holder == LeftOf(r.value.pair) && r.value.right.holder == RightOf(r.value.pair)
  {
    if |shares| != 2 then Err(ExactTwoSharesRequired)
    else if ValidateShare(shares[0]).Some? then Err(ValidateShare(shares[0]).value)
    else if ValidateShare(shares[1]).Some? then Err(ValidateShare(shares[1]).value)
    else if shares[0].holder == shares[1].holder then Err(DuplicateShare)
    else
      var left := if shares[0].holder < shares[1].holder then shares[0] else shares[1];
      var right := if shares[0].holder < shares[1].holder then shares[1] else shares[0];
      Ok(Selected(PairOf(left.holder, right.holder), left, right))
  }

  predicate ShareMatches(s: Share, e: Envelope) {
    s.set_ == e.set_ && s.epoch == e.epoch && s.sharing == e.sharing
  }

  function WrapperFor(b: Bundle, p: Pair): KeyWrapper
    requires |b.wrappers| == 3
  {
    match p case P12 => b.wrappers[0] case P13 => b.wrappers[1] case P23 => b.wrappers[2]
  }

  function Restore(derive: Derivation, b: Bundle, shares: seq<Share>, floor: Option<Floor>): Result<Package> {
    if BundleFault(b).Some? then Err(BundleFault(b).value)
    else if FloorFault(b.envelope, floor).Some? then Err(FloorFault(b.envelope, floor).value)
    else
      match SelectPair(shares)
      case Err(e) => Err(e)
      case Ok(sel) =>
        if !ShareMatches(sel.left, b.envelope) || !ShareMatches(sel.right, b.envelope) then Err(MixedShareSet)
        else
          var key := PairKeyOf(b.envelope, sel.pair, ContributionFor(sel.left, sel.pair), ContributionFor(sel.right, sel.pair));
          match Open(key, WrapperFor(b, sel.pair).payload, WrapperAadOf(b.envelope, sel.pair))
          case NotAuthentic => Err(KeyUnwrapFailed)
          case Plain(unwrapped) =>
            if !unwrapped.KeyText? then Err(KeyUnwrapFailed)
            else
              match Open(unwrapped.key, b.encrypted, PackageAadOf(b.envelope))
              case NotAuthentic => Err(PackageAuthenticationFailed)
              case Plain(text) =>
                if !text.PackageText? then Err(PackageCodecInvalid)
                else
                  match ValidatePackage(derive, text.package)
                  case Err(e) => Err(e)
                  case Ok(p) => if p.recoveryEpoch != b.envelope.epoch then Err(EpochMismatch) else Ok(p)
  }

  // ---- Created bundles ------------------------------------------------------------------

  predicate CreateInputs(derive: Derivation, p: Package, counter: nat, createdAt: nat, rnd: Randomness) {
    Canonical(derive, p) && rnd.set_ != 0 && PositiveUInt64(counter) && PositiveUInt64(createdAt)
  }

  lemma BundleOfIsSafe(derive: Derivation, p: Package, counter: nat, createdAt: nat, rnd: Randomness)
    requires CreateInputs(derive, p, counter, createdAt, rnd)
    ensures BundleFault(BundleOf(rnd, p, counter, createdAt)).None?
  {
    hide RecordsValid, AccountsKnown, IncreasingLists;
  }

  /** A bundle is created exactly for a canonical package and positive numbers. */
  lemma CreateExactly(derive: Derivation, p: Package, counter: nat, createdAt: nat, rnd: Randomness)
    ensures CreateBundle(derive, p, counter, createdAt, rnd).Ok? <==> CreateInputs(derive, p, counter, createdAt, rnd)
    ensures CreateBundle(derive, p, counter, createdAt, rnd).Ok? ==>
      CreateBundle(derive, p, counter, createdAt, rnd).value
      == Created(BundleOf(rnd, p, counter, createdAt),
                 [CreateShare(rnd, p.recoveryEpoch, 1), CreateShare(rnd, p.recoveryEpoch, 2), CreateShare(rnd, p.recoveryEpoch, 3)])
  {
    hide ValidatePackage, Canonical, BundleOf, BundleFault, CreateShare;
    ValidateExactly(derive, p);
    if CreateInputs(derive, p, counter, createdAt, rnd) { BundleOfIsSafe(derive, p, counter, createdAt, rnd); }
  }

  /** The contributions a pair of shares makes to its wrapper are those the set was made with. */
  predicate RightContributions(rnd: Randomness, sel: Selected)
    requires ValidateShare(sel.left).None? && ValidateShare(sel.right).None?
    requires sel.left.holder == LeftOf(sel.pair) && sel.right.holder == RightOf(sel.pair)
  {
    ContributionFor(sel.left, sel.pair) == rnd.left.At(sel.pair) && ContributionFor(sel.right, sel.pair) == rnd.right.At(sel.pair)
  }

  /** When restoring a created bundle succeeds, for any shares and any floor, and that it can
      then return nothing but the package the bundle was created from. */
  lemma RestoreExactly(derive: Derivation, p: Package, counter: nat, createdAt: nat, rnd: Randomness,
                       shares: seq<Share>, floor: Option<Floor>)
    requires CreateInputs(derive, p, counter, createdAt, rnd)
    ensures var b := BundleOf(rnd, p, counter, createdAt);
      var sel := SelectPair(shares);
      Restore(derive, b, shares, floor)
      == if FloorFault(b.envelope, floor).Some? then Err(FloorFault(b.envelope, floor).value)
         else if sel.Err? then Err(sel.error)
         else if !ShareMatches(sel.value.left, b.envelope) || !ShareMatches(sel.value.right, b.envelope) then Err(MixedShareSet)
         else if !RightContributions(rnd, sel.value) then Err(KeyUnwrapFailed)
         else Ok(p)
  {
    hide ValidatePackage, Canonical, BundleFault, SelectPair, ValidateShare, FloorFault, ContributionFor;
    BundleOfIsSafe(derive, p, counter, createdAt, rnd);
    ValidateExactly(derive, p);
  }

  lemma CreatedShareValid(rnd: Randomness, epoch: nat, holder: nat)
    requires rnd.set_ != 0 && PositiveUInt64(epoch) && 1 <= holder <= 3
    ensures ValidateShare(CreateShare(rnd, epoch, holder)).None?
    ensures forall p: Pair :: holder == LeftOf(p) || holder == RightOf(p) ==>
      ContributionFor(CreateShare(rnd, epoch, holder), p) == MaterialFor(rnd, holder, p)
  {
  }

  /** Every pair of a set's shares, in either order, restores exactly the package. */
  lemma TwoOfThree(derive: Derivation, p: Package, counter: nat, createdAt: nat, rnd: Randomness, i: nat, j: nat)
    requires CreateInputs(derive, p, counter, createdAt, rnd)
    requires 1 <= i <= 3 && 1 <= j <= 3 && i != j
    ensures var c := CreateBundle(derive, p, counter, createdAt, rnd);
      c.Ok? && Restore(derive, c.value.bundle, [c.value.shares[i - 1], c.value.shares[j - 1]], None) == Ok(p)
  {
    hide ValidatePackage, Canonical, BundleFault, ValidateShare, ContributionFor, CreateShare, Restore, BundleOf, CreateBundle;
    CreateExactly(derive, p, counter, createdAt, rnd);
    EpochOfCanonical(derive, p);
    var epoch := p.recoveryEpoch;
    CreatedShareValid(rnd, epoch, i);
    CreatedShareValid(rnd, epoch, j);
    ShareFields(rnd, epoch, i);
    ShareFields(rnd, epoch, j);
    BundleFields(rnd, p, counter, createdAt);
    RestoreExactly(derive, p, counter, createdAt, rnd, [CreateShare(rnd, epoch, i), CreateShare(rnd, epoch, j)], None);
  }

  lemma EpochOfCanonical(derive: Derivation, p: Package)
    requires Canonical(derive, p)
    ensures PositiveUInt64(p.recoveryEpoch)
  {
  }

  lemma ShareFields(rnd: Randomness, epoch: nat, holder: nat)
    requires 1 <= holder <= 3
    ensures var s := CreateShare(rnd, epoch, holder);
      s.holder == holder && s.set_ == rnd.set_ && s.epoch == epoch && s.sharing == SHARING_SUITE
  {
  }

  lemma BundleFields(rnd: Randomness, p: Package, counter: nat, createdAt: nat)
    ensures var b := BundleOf(rnd, p, counter, createdAt);
      b.envelope.set_ == rnd.set_ && b.envelope.epoch == p.recoveryEpoch && b.envelope.sharing == SHARING_SUITE
      && b.envelope.counter == counter && b.envelope.createdAt == createdAt && |b.wrappers| == 3
  {
  }

  /** With anything but two shares, or with a share of another set or epoch, nothing is
      restored; this holds for every bundle. */
  lemma MixedSharesRefused(derive: Derivation, b: Bundle, shares: seq<Share>, floor: Option<Floor>)
    requires |shares| != 2 || shares[0].holder == shares[1].holder
          || exists k :: 0 <= k < |shares| && (shares[k].set_ != b.envelope.set_ || shares[k].epoch != b.envelope.epoch)
    ensures Restore(derive, b, shares, floor).Err?
  {
    hide ValidatePackage, BundleFault, ValidateShare, ContributionFor;
  }

  /** Under the wrappers of a created bundle only its own envelope, ciphertext and format
      restore: any altered field, in any combination, is refused for every choice of shares. */
  lemma AlteredBundleRefused(derive: Derivation, p: Package, counter: nat, createdAt: nat, rnd: Randomness,
                             altered: Bundle, shares: seq<Share>, floor: Option<Floor>)
    requires CreateInputs(derive, p, counter, createdAt, rnd)
    requires altered.wrappers == BundleOf(rnd, p, counter, createdAt).wrappers
    requires altered != BundleOf(rnd, p, counter, createdAt)
    ensures Restore(derive, altered, shares, floor).Err?
  {
    hide ValidatePackage, Canonical, SelectPair, ValidateShare, FloorFault, ContributionFor;
  }
}
