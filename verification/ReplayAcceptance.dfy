/**
 * The checks of a mint authorization on the fields of the request, in the order they are made, and what an
 * interrupted call has passed when it releases.
 */
module ReplayAcceptance {
  import opened Wrappers
  import opened ReplayStore

  /** Every authority is active, nothing was cancelled or denied, and the envelope agrees with the trusted state:
      in its window, without value, within both fee limits, at the current account nonce, proved and approved. */
  ghost predicate Authorized(q: Request) {
    && !q.emergencyStop && q.scopeActive && q.policyActive && q.proofDescriptorActive && q.deviceActive
    && q.recoveryStateCurrent && q.validatorActive && !q.cancelled && !q.denied
    && q.bindingsMatch && q.envelopeMatches && q.validAfter <= q.now <= q.validUntil
    && q.valueWei == 0 == q.valueLimit && q.maximumFee <= q.feeLimit && q.maximumFee <= q.boundFee
    && q.reservation.accountNonce == q.currentAccountNonce
    && q.publicInputsBound && q.proofValid && q.deviceApprovalValid
  }

  lemma AcceptableExactly(q: Request)
    ensures Acceptable(q) <==> Authorized(q)
  {
  }

  ghost predicate DigestUsed(s: Store, n: nat) { exists r :: r in s && r.digest == n }
  ghost predicate NullifierUsed(s: Store, n: nat) { exists r :: r in s && r.nullifier == n }
  ghost predicate ApprovalUsed(s: Store, n: nat) { exists r :: r in s && r.approvalNonce == n }
  ghost predicate AccountUsed(s: Store, n: nat) { exists r :: r in s && r.accountNonce == n }

  lemma UsedExactly(s: Store, n: nat)
    ensures HasDigest(s, n) <==> DigestUsed(s, n)
    ensures HasNullifier(s, n) <==> NullifierUsed(s, n)
    ensures HasApprovalNonce(s, n) <==> ApprovalUsed(s, n)
    ensures HasAccountNonce(s, n) <==> AccountUsed(s, n)
  {
  }

  /** The answer of a call: the first check that fails, or the release of this reservation for its account, until
      the end of its window and at the fee limit. */
  lemma AuthorizeExactly(c: Contract, s: Store, q: Request)
    ensures var r := q.reservation;
      var resuming := c.recognizes && r in s;
      var inactive := q.emergencyStop || !q.scopeActive || !q.policyActive || !q.proofDescriptorActive || !q.deviceActive
                      || !q.recoveryStateCurrent || !q.validatorActive || q.cancelled || q.denied;
      Authorize(c, s, q)
      == if inactive then Answer(s, Refused(AuthorityInactive))
         else if !q.bindingsMatch then Answer(s, Refused(BindingMismatch))
         else if !q.envelopeMatches then Answer(s, Refused(EnvelopeMismatch))
         else if !(q.validAfter <= q.now <= q.validUntil) then Answer(s, Refused(Expired))
         else if !(q.valueWei == q.valueLimit == 0) then Answer(s, Refused(NonzeroValue))
         else if !(q.maximumFee <= q.feeLimit && q.maximumFee <= q.boundFee) then Answer(s, Refused(FeeLimitExceeded))
         else if r.accountNonce != q.currentAccountNonce then Answer(s, Refused(AccountNonceMismatch))
         else if !q.publicInputsBound then Answer(s, Refused(PublicInputsUnbound))
         else if !q.proofValid then Answer(s, Refused(ProofInvalid))
         else if !resuming && ApprovalUsed(s, r.approvalNonce) then Answer(s, Refused(ApprovalReplay))
         else if !q.deviceApprovalValid then Answer(s, Refused(ApprovalInvalid))
         else if !resuming && DigestUsed(s, r.digest) then Answer(s, Refused(EnvelopeReplay))
         else if !resuming && NullifierUsed(s, r.nullifier) then Answer(s, Refused(NullifierReplay))
         else if !resuming && AccountUsed(s, r.accountNonce) then Answer(s, Refused(AccountNonceReplay))
         else Answer(if resuming then s else s + [r],
                     Released(Release(r, q.approvalDigest, q.account, q.validUntil, q.feeLimit)))
  {
    hide HasDigest, HasNullifier, HasApprovalNonce, HasAccountNonce, DigestUsed, NullifierUsed, ApprovalUsed, AccountUsed;
    UsedExactly(s, q.reservation.digest);
    UsedExactly(s, q.reservation.nullifier);
    UsedExactly(s, q.reservation.approvalNonce);
    UsedExactly(s, q.reservation.accountNonce);
  }

  /** An atomic reserve takes a reservation exactly if none of its four values is in the store; a plain one takes
      everything.  Either appends. */
  lemma ReserveExactly(c: Contract, s: Store, r: Reservation)
    ensures Reserve(c, s, r).None?
       <==> c.atomic && (DigestUsed(s, r.digest) || NullifierUsed(s, r.nullifier) || ApprovalUsed(s, r.approvalNonce)
                         || AccountUsed(s, r.accountNonce))
    ensures Reserve(c, s, r).Some? ==> Reserve(c, s, r).value == s + [r]
  {
    if c.atomic && !Fresh(s, r) {
      var i :| 0 <= i < |s| && !Apart(s[i], r);
      assert s[i] in s;
    }
    if Fresh(s, r) {
      forall x | x in s ensures Apart(x, r) {
        var i :| 0 <= i < |s| && s[i] == x;
      }
    }
  }
}
