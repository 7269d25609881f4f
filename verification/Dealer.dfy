/**
 The trusted dealer of the SPDZ offline phase (dealer/renegade-dealer/src/dealer.rs): the
 correlated randomness it deals to a pair of parties. Every `Scalar::random` of the source is
 an arbitrary choice here, so each contract holds for every random outcome.
 */
module Dealer {
  import opened PrimeField

  datatype ScalarShare = ScalarShare(share: Scalar, mac: Scalar)

  datatype DealerRequest = DealerRequest(
    firstPartyKey: string,
    secondPartyKey: string,
    nRandomBits: nat,
    nRandomValues: nat,
    nInputMasks: nat,
    nInversePairs: nat,
    nTriples: nat
  )

  datatype DealerResponse = DealerResponse(
    macKeyShare: Scalar,
    randomBits: seq<ScalarShare>,
    randomValues: seq<ScalarShare>,
    inputMasks: (seq<Scalar>, seq<ScalarShare>, seq<ScalarShare>),
    inversePairs: (seq<ScalarShare>, seq<ScalarShare>),
    beaverTriples: (seq<ScalarShare>, seq<ScalarShare>, seq<ScalarShare>)
  )

  // ------------------------------
  // | What two parties can check |
  // ------------------------------

  /** The value two shares open to. */
  function Open(s1: ScalarShare, s2: ScalarShare): Scalar {
    Add(s1.share, s2.share)
  }

  /** The MAC shares add up to the opened value times the key. */
  ghost predicate Authentic(key: Scalar, s1: ScalarShare, s2: ScalarShare) {
    Add(s1.mac, s2.mac) == Mul(Open(s1, s2), key)
  }

  /** `n` pairs of shares, each authentic. */
  ghost predicate AuthenticAll(key: Scalar, n: nat, s1: seq<ScalarShare>, s2: seq<ScalarShare>) {
    |s1| == |s2| == n && forall i :: 0 <= i < n ==> Authentic(key, s1[i], s2[i])
  }

  /** Shares of exactly these values. */
  ghost predicate SharesOf(key: Scalar, values: seq<Scalar>, s1: seq<ScalarShare>, s2: seq<ScalarShare>) {
    && AuthenticAll(key, |values|, s1, s2)
    && forall i :: 0 <= i < |values| ==> Open(s1[i], s2[i]) == values[i]
  }

  ghost predicate GoodBits(key: Scalar, n: nat, r1: DealerResponse, r2: DealerResponse) {
    && AuthenticAll(key, n, r1.randomBits, r2.randomBits)
    && forall i :: 0 <= i < n ==> Open(r1.randomBits[i], r2.randomBits[i]) in {0, 1}
  }

  ghost predicate GoodValues(key: Scalar, n: nat, r1: DealerResponse, r2: DealerResponse) {
    AuthenticAll(key, n, r1.randomValues, r2.randomValues)
  }

  /** Each party's cleartext masks open from its own shares and the counterparty's third component. */
  ghost predicate GoodMasks(key: Scalar, n: nat, r1: DealerResponse, r2: DealerResponse) {
    && |r1.inputMasks.0| == n == |r2.inputMasks.0|
    && SharesOf(key, r1.inputMasks.0, r1.inputMasks.1, r2.inputMasks.2)
    && SharesOf(key, r2.inputMasks.0, r2.inputMasks.1, r1.inputMasks.2)
  }

  ghost predicate GoodInverses(key: Scalar, n: nat, r1: DealerResponse, r2: DealerResponse) {
    && AuthenticAll(key, n, r1.inversePairs.0, r2.inversePairs.0)
    && AuthenticAll(key, n, r1.inversePairs.1, r2.inversePairs.1)
    && forall i :: 0 <= i < n ==>
         Mul(Open(r1.inversePairs.0[i], r2.inversePairs.0[i]), Open(r1.inversePairs.1[i], r2.inversePairs.1[i])) == 1
  }

  ghost predicate GoodTriples(key: Scalar, n: nat, r1: DealerResponse, r2: DealerResponse) {
    && AuthenticAll(key, n, r1.beaverTriples.0, r2.beaverTriples.0)
    && AuthenticAll(key, n, r1.beaverTriples.1, r2.beaverTriples.1)
    && AuthenticAll(key, n, r1.beaverTriples.2, r2.beaverTriples.2)
    && forall i :: 0 <= i < n ==>
         Mul(Open(r1.beaverTriples.0[i], r2.beaverTriples.0[i]), Open(r1.beaverTriples.1[i], r2.beaverTriples.1[i]))
         == Open(r1.beaverTriples.2[i], r2.beaverTriples.2[i])
  }

  /** Everything the dealer promises, under the key that the two key shares add up to. */
  ghost predicate Dealt(req: DealerRequest, r1: DealerResponse, r2: DealerResponse) {
    var key := Add(r1.macKeyShare, r2.macKeyShare);
    && GoodBits(key, req.nRandomBits, r1, r2)
    && GoodValues(key, req.nRandomValues, r1, r2)
    && GoodMasks(key, req.nInputMasks, r1, r2)
    && GoodInverses(key, req.nInversePairs, r1, r2)
    && GoodTriples(key, req.nTriples, r1, r2)
  }

  // -----------
  // | Helpers |
  // -----------

  method RandomScalar() returns (s: Scalar) {
    s :| 0 <= s < MODULUS;
  }

  method RandomScalars(n: nat) returns (values: seq<Scalar>)
    ensures |values| == n
  {
    values := [];
    for i := 0 to n
      invariant |values| == i
    {
      var v := RandomScalar();
      values := values + [v];
    }
  }

  function ComputeMacs(key: Scalar, values: seq<Scalar>): (macs: seq<Scalar>)
    ensures |macs| == |values|
  {
    seq(|values|, i requires 0 <= i < |values| => Mul(values[i], key))
  }

  /** Additive shares: whatever the random first shares, the two add up to the values. */
  method GenSecretShares(values: seq<Scalar>) returns (share1: seq<Scalar>, share2: seq<Scalar>)
    ensures |share1| == |share2| == |values|
    ensures forall i :: 0 <= i < |values| ==> Add(share1[i], share2[i]) == values[i]
  {
    share1, share2 := [], [];
    for i := 0 to |values|
      invariant |share1| == |share2| == i
      invariant forall j :: 0 <= j < i ==> Add(share1[j], share2[j]) == values[j]
    {
      var share := RandomScalar();
      ShareAndRest(values[i], share);
      share1 := share1 + [share];
      share2 := share2 + [Sub(values[i], share)];
    }
  }

  method CollectShares(values: seq<Scalar>, macs: seq<Scalar>) returns (shares: seq<ScalarShare>)
    ensures |shares| == if |values| < |macs| then |values| else |macs|
    ensures forall i :: 0 <= i < |shares| ==> shares[i].share == values[i] && shares[i].mac == macs[i]
  {
    shares := [];
    var n := if |values| < |macs| then |values| else |macs|;
    for i := 0 to n
      invariant |shares| == i
      invariant forall j :: 0 <= j < i ==> shares[j].share == values[j] && shares[j].mac == macs[j]
    {
      shares := shares + [ScalarShare(values[i], macs[i])];
    }
  }

  method GenAuthenticatedSecretShares(key: Scalar, values: seq<Scalar>)
    returns (s1: seq<ScalarShare>, s2: seq<ScalarShare>)
    ensures SharesOf(key, values, s1, s2)
  {
    var macs := ComputeMacs(key, values);
    var shares1, shares2 := GenSecretShares(values);
    var macShares1, macShares2 := GenSecretShares(macs);
    s1 := CollectShares(shares1, macShares1);
    s2 := CollectShares(shares2, macShares2);
    forall i | 0 <= i < |values| ensures Open(s1[i], s2[i]) == values[i] && Authentic(key, s1[i], s2[i]) {
      assert Add(macShares1[i], macShares2[i]) == macs[i];
    }
  }

  /** The other party's shares, given what one party sees and what is being shared. */
  function Counterpart(key: Scalar, values: seq<Scalar>, seen: seq<ScalarShare>): (other: seq<ScalarShare>)
    requires |values| == |seen|
    ensures |other| == |seen|
  {
    seq(|seen|, i requires 0 <= i < |seen| =>
      ScalarShare(Sub(values[i], seen[i].share), Sub(Mul(values[i], key), seen[i].mac)))
  }

  lemma RestIsUnique(v: Scalar, s: Scalar, t: Scalar)
    ensures Add(s, t) == v <==> t == Sub(v, s)
    ensures Add(t, s) == v <==> t == Sub(v, s)
  {
  }

  /**
   What one party sees of shared values, shares and mac shares together, is consistent with every
   choice of the values and of the key, each through exactly one choice of the other party's shares.
   */
  lemma ViewHidesValues(key: Scalar, values: seq<Scalar>, seen: seq<ScalarShare>, other: seq<ScalarShare>)
    requires |values| == |seen|
    ensures SharesOf(key, values, seen, other) <==> other == Counterpart(key, values, seen)
    ensures SharesOf(key, values, other, seen) <==> other == Counterpart(key, values, seen)
  {
    var c := Counterpart(key, values, seen);
    forall i | 0 <= i < |values| && |other| == |values|
      ensures (Open(seen[i], other[i]) == values[i] && Authentic(key, seen[i], other[i])) <==> other[i] == c[i]
      ensures (Open(other[i], seen[i]) == values[i] && Authentic(key, other[i], seen[i])) <==> other[i] == c[i]
    {
      RestIsUnique(values[i], seen[i].share, other[i].share);
      RestIsUnique(Mul(values[i], key), seen[i].mac, other[i].mac);
    }
    if SharesOf(key, values, seen, other) || SharesOf(key, values, other, seen) {
      assert |other| == |c| && forall i :: 0 <= i < |c| ==> other[i] == c[i];
    }
  }

  // ------------------------------------
  // | Correlated randomness generation |
  // ------------------------------------

  method GenRandomBits(n: nat, key: Scalar, resp1: DealerResponse, resp2: DealerResponse)
    returns (r1: DealerResponse, r2: DealerResponse)
    ensures GoodBits(key, n, r1, r2)
    ensures r1 == resp1.(randomBits := r1.randomBits) && r2 == resp2.(randomBits := r2.randomBits)
  {
    var bits: seq<Scalar> := [];
    for i := 0 to n
      invariant |bits| == i && forall j :: 0 <= j < i ==> bits[j] in {0, 1}
    {
      var b :| b == 0 || b == 1;
      bits := bits + [b];
    }
    var s1, s2 := GenAuthenticatedSecretShares(key, bits);
    r1, r2 := resp1.(randomBits := s1), resp2.(randomBits := s2);
    assert forall i :: 0 <= i < n ==> Open(s1[i], s2[i]) == bits[i];
  }

  method GenRandomValues(n: nat, key: Scalar, resp1: DealerResponse, resp2: DealerResponse)
    returns (r1: DealerResponse, r2: DealerResponse)
    ensures GoodValues(key, n, r1, r2)
    ensures r1 == resp1.(randomValues := r1.randomValues) && r2 == resp2.(randomValues := r2.randomValues)
  {
    var values := RandomScalars(n);
    var s1, s2 := GenAuthenticatedSecretShares(key, values);
    r1, r2 := resp1.(randomValues := s1), resp2.(randomValues := s2);
  }

  method GenInputMasks(n: nat, key: Scalar, resp1: DealerResponse, resp2: DealerResponse)
    returns (r1: DealerResponse, r2: DealerResponse)
    ensures GoodMasks(key, n, r1, r2)
    ensures r1 == resp1.(inputMasks := r1.inputMasks) && r2 == resp2.(inputMasks := r2.inputMasks)
  {
    var masks1 := RandomScalars(n);
    var masks2 := RandomScalars(n);
    var mask1Share1, mask1Share2 := GenAuthenticatedSecretShares(key, masks1);
    var mask2Share1, mask2Share2 := GenAuthenticatedSecretShares(key, masks2);
    r1 := resp1.(inputMasks := (masks1, mask1Share1, mask2Share1));
    r2 := resp2.(inputMasks := (masks2, mask2Share2, mask1Share2));
    assert SharesOf(key, masks2, mask2Share2, mask2Share1) by {
      SwapParties(key, masks2, mask2Share1, mask2Share2);
    }
  }

  lemma SwapParties(key: Scalar, values: seq<Scalar>, s1: seq<ScalarShare>, s2: seq<ScalarShare>)
    requires SharesOf(key, values, s1, s2)
    ensures SharesOf(key, values, s2, s1)
  {
    forall i | 0 <= i < |values| ensures Open(s2[i], s1[i]) == values[i] && Authentic(key, s2[i], s1[i]) {
      assert Authentic(key, s1[i], s2[i]) && Open(s1[i], s2[i]) == values[i];
    }
  }

  /** Any draw other than zero, on which the source panics. */
  method NonzeroScalars(n: nat) returns (r: seq<Scalar>)
    ensures |r| == n && forall i :: 0 <= i < n ==> r[i] != 0
  {
    r := [];
    for i := 0 to n
      invariant |r| == i && forall j :: 0 <= j < i ==> r[j] != 0
    {
      var one: Scalar := 1;
      assert one != 0;
      var v: Scalar :| v != 0;
      r := r + [v];
    }
  }

  /** Whatever nonzero scalars were drawn, each has an inverse, because the group order is prime. */
  method InvertAll(r: seq<Scalar>) returns (rInv: seq<Scalar>)
    requires IsPrime(MODULUS) && forall i :: 0 <= i < |r| ==> r[i] != 0
    ensures |rInv| == |r| && forall i :: 0 <= i < |r| ==> Mul(r[i], rInv[i]) == 1
  {
    rInv := [];
    for i := 0 to |r|
      invariant |rInv| == i
      invariant forall j :: 0 <= j < i ==> Mul(r[j], rInv[j]) == 1
    {
      ScalarHasInverse(r[i]);
      var w: Scalar :| Mul(r[i], w) == 1;
      rInv := rInv + [w];
    }
  }

  lemma ScalarHasInverse(v: Scalar)
    requires IsPrime(MODULUS) && v != 0
    ensures exists w: Scalar :: Mul(v, w) == 1
  {
    NonzeroHasInverse(MODULUS, v);
    var b :| 0 <= b < MODULUS && (v * b) % MODULUS == 1;
    var w: Scalar := b;
    assert Mul(v, w) == 1;
  }

  /** The draw `r` is a parameter: any nonzero scalars are dealt, together with their inverses. */
  method GenInversePairs(r: seq<Scalar>, key: Scalar, resp1: DealerResponse, resp2: DealerResponse)
    returns (r1: DealerResponse, r2: DealerResponse)
    requires IsPrime(MODULUS) && forall i :: 0 <= i < |r| ==> r[i] != 0
    ensures GoodInverses(key, |r|, r1, r2) && SharesOf(key, r, r1.inversePairs.0, r2.inversePairs.0)
    ensures r1 == resp1.(inversePairs := r1.inversePairs) && r2 == resp2.(inversePairs := r2.inversePairs)
  {
    var rInv := InvertAll(r);
    var rShares1, rShares2 := GenAuthenticatedSecretShares(key, r);
    var invShares1, invShares2 := GenAuthenticatedSecretShares(key, rInv);
    r1, r2 := resp1.(inversePairs := (rShares1, invShares1)), resp2.(inversePairs := (rShares2, invShares2));
    forall i | 0 <= i < |r|
      ensures Mul(Open(rShares1[i], rShares2[i]), Open(invShares1[i], invShares2[i])) == 1
    {
      assert Open(rShares1[i], rShares2[i]) == r[i] && Open(invShares1[i], invShares2[i]) == rInv[i];
    }
  }

  function Products(a: seq<Scalar>, b: seq<Scalar>): (c: seq<Scalar>)
    requires |a| == |b|
    ensures |c| == |a|
  {
    seq(|a|, i requires 0 <= i < |a| => Mul(a[i], b[i]))
  }

  method GenTriples(n: nat, key: Scalar, resp1: DealerResponse, resp2: DealerResponse)
    returns (r1: DealerResponse, r2: DealerResponse)
    ensures GoodTriples(key, n, r1, r2)
    ensures r1 == resp1.(beaverTriples := r1.beaverTriples) && r2 == resp2.(beaverTriples := r2.beaverTriples)
  {
    var a := RandomScalars(n);
    var b := RandomScalars(n);
    var c := Products(a, b);
    var a1, a2 := GenAuthenticatedSecretShares(key, a);
    var b1, b2 := GenAuthenticatedSecretShares(key, b);
    var c1, c2 := GenAuthenticatedSecretShares(key, c);
    r1, r2 := resp1.(beaverTriples := (a1, b1, c1)), resp2.(beaverTriples := (a2, b2, c2));
    forall i | 0 <= i < n
      ensures Mul(Open(a1[i], a2[i]), Open(b1[i], b2[i])) == Open(c1[i], c2[i])
    {
      assert Open(a1[i], a2[i]) == a[i] && Open(b1[i], b2[i]) == b[i] && Open(c1[i], c2[i]) == c[i];
    }
  }

  /** The two responses to a ready pair carry everything the dealer promises, for every request. */
  method HandleReadyPair(req: DealerRequest) returns (resp1: DealerResponse, resp2: DealerResponse)
    requires IsPrime(MODULUS)
    ensures Dealt(req, resp1, resp2)
  {
    var key := RandomScalar();
    var macShare1 := RandomScalar();
    ShareAndRest(key, macShare1);
    resp1 := DealerResponse(macShare1, [], [], ([], [], []), ([], []), ([], [], []));
    resp2 := resp1.(macKeyShare := Sub(key, macShare1));
    resp1, resp2 := GenRandomBits(req.nRandomBits, key, resp1, resp2);
    resp1, resp2 := GenRandomValues(req.nRandomValues, key, resp1, resp2);
    resp1, resp2 := GenInputMasks(req.nInputMasks, key, resp1, resp2);
    var r := NonzeroScalars(req.nInversePairs);
    resp1, resp2 := GenInversePairs(r, key, resp1, resp2);
    resp1, resp2 := GenTriples(req.nTriples, key, resp1, resp2);
  }
}
