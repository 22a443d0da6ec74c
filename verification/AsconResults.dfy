/** The general results at the real permutation. */
module AsconResults {
  import opened Sponge
  import opened OneShot
  import opened AsconMode
  import opened OsslCalls
  import opened OsslAad

  /** Both permutations of the mode are injective. */
  lemma AsconIsInjective()
    ensures Injective(Ascon().pa) && Injective(Ascon().pb)
  {
    hide Permutation, PermutationInverse;
    forall a: State, b: State
      ensures Permutation(a, PA) == Permutation(b, PA) ==> a == b
      ensures Permutation(a, PB) == Permutation(b, PB) ==> a == b
    {
      PermutationInverts(a, PA);
      PermutationInverts(b, PA);
      PermutationInverts(a, PB);
      PermutationInverts(b, PB);
    }
  }

  /** For Ascon itself, when the AD state of the OpenSSL port is the standard's. */
  lemma AsconClosedAdExactly(s0: State, ad: seq<byte>, b: AdBuf)
    requires Absorbed(Ascon().pb, s0, ad, b)
    ensures ClosedAd(Ascon(), b) == WithAd(Ascon(), s0, ad)
            <==> (ad == []
                  || (|ad| % AEAD_RATE != 0 && TailZero(b))
                  || (|ad| % AEAD_RATE == 0 && var t := LastBlockIn(Ascon().pb, s0, ad); Permutation(t, PB) == XorAt(t, 0, PAD)))
  {
    hide Permutation, Absorbed, ClosedAd, WithAd, TailZero, XorAt;
    AsconIsInjective();
    ClosedAdExactly(Ascon(), s0, ad, b);
  }

  /** The same over the calls that gave the AD. */
  lemma AsconAadInCallsExactly(s0: State, calls: seq<seq<byte>>)
    ensures var P, ad := Ascon(), Flatten(calls);
            ClosedAd(P, AbsorbCalls(P.pb, AdBuf(s0, ZERO_BLOCK, 0), calls)) == WithAd(P, s0, ad)
            <==> (ad == []
                  || (|ad| % AEAD_RATE != 0 && StaleZero(calls))
                  || (|ad| % AEAD_RATE == 0 && var t := LastBlockIn(P.pb, s0, ad); Permutation(t, PB) == XorAt(t, 0, PAD)))
  {
    hide Permutation, ClosedAd, WithAd, AbsorbCalls, StaleZero, LastBlockIn, XorAt, Flatten;
    AsconIsInjective();
    AadInCallsExactly(Ascon(), s0, calls);
  }

  /** For Ascon itself, AD of eight and then nine bytes 0xFF goes wrong. */
  lemma AsconFlushedAadDiffers(s0: State)
    ensures var calls := [seq(8, i => 0xFF as byte), seq(9, i => 0xFF as byte)];
            ClosedAd(Ascon(), AbsorbCalls(Ascon().pb, AdBuf(s0, ZERO_BLOCK, 0), calls))
            != WithAd(Ascon(), s0, Flatten(calls))
  {
    hide Ascon, ClosedAd, WithAd, AbsorbCalls, Flatten;
    AsconIsInjective();
    FlushedAadDiffers(Ascon(), s0);
  }
}
