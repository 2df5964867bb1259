/** Keys and nonces over whole sessions: which AEAD uses share a (key, nonce) pair. */
module NonceUse {
  import opened ByteStrings
  import opened Frames
  import opened Primitives
  import opened Records
  import opened SendRuns
  import opened Sessions

  // ---- the keys of a session ----

  /** The key of one direction in epoch e: expanded from the handshake secret, then ratcheted e times. */
  function KeyOf(c: Crypto, prk: Bytes, lbl: Bytes, e: nat): Bytes
    requires e < 256
    decreases e
  {
    if e == 0 then c.expand(prk, lbl, 32) else c.expand(KeyOf(c, prk, lbl, e - 1), RatchetInfo(e - 1, 0), 32)
  }

  /** What that key was expanded from. */
  function KeyInput(c: Crypto, prk: Bytes, lbl: Bytes, e: nat): (Bytes, Bytes)
    requires e < 256
  {
    if e == 0 then (prk, lbl) else (KeyOf(c, prk, lbl, e - 1), RatchetInfo(e - 1, 0))
  }

  /** No two different inputs among the expansions of this session's keys give the same key. */
  ghost predicate ExpandApart(c: Crypto, prk: Bytes)
  {
    forall l, e: nat, m, f: nat | l in {LBL_I2R, LBL_R2I} && m in {LBL_I2R, LBL_R2I} && e < 256 && f < 256 ::
      KeyOf(c, prk, l, e) == KeyOf(c, prk, m, f) ==> KeyInput(c, prk, l, e) == KeyInput(c, prk, m, f)
  }

  /** A direction and an epoch, for an expansion that tells them apart. */
  function Tagged(prk: Bytes, info: Bytes, n: nat): (r: Bytes)
    ensures |r| == n
  {
    var dir: byte := if info == LBL_I2R then 1 else if info == LBL_R2I then 2 else if prk == [] then 0 else prk[0];
    var epoch: byte :=
      if info in {LBL_I2R, LBL_R2I} || |info| != |LBL_REKEY| + 3 then 0
      else (info[|LBL_REKEY| + 1] as int + 1) % 256;
    seq(n, i => if i == 0 then dir else if i == 1 then epoch else 0)
  }

  lemma {:induction false} TaggedKey(c: Crypto, prk: Bytes, l: Bytes, e: nat)
    requires c.expand == Tagged && l in {LBL_I2R, LBL_R2I} && e < 256
    ensures |KeyOf(c, prk, l, e)| == 32
    ensures KeyOf(c, prk, l, e)[0] == (if l == LBL_I2R then 1 else 2) && KeyOf(c, prk, l, e)[1] == e
    decreases e
  {
    ExpandLabelsDistinct();
    if e > 0 {
      TaggedKey(c, prk, l, e - 1);
      InfoIsNoLabel(e - 1);
    }
  }

  /** What is asked of the expansion can be had together with all the rest. */
  lemma {:induction false} ApartConsistent(prk: Bytes)
    ensures exists c: Crypto ::
      AeadCorrect(c) && ExchangeCorrect(c) && OutputLengths(c) && SignCorrect(c) && ExpandApart(c, prk)
  {
    hide KeyOf, Tagged;
    RequirementsConsistent();
    var b: Crypto :| AeadCorrect(b) && ExchangeCorrect(b) && OutputLengths(b) && SignCorrect(b);
    var c := b.(expand := Tagged);
    forall sk ensures c.sigPkOk(c.sigPub(sk))
    {
      assert b.verify(b.sigPub(sk), [], b.sign(sk, [], []));
    }
    forall sk, m, r ensures c.verify(c.sigPub(sk), m, c.sign(sk, m, r))
    {
      assert b.verify(b.sigPub(sk), m, b.sign(sk, m, r));
    }
    TaggedApart(c, prk);
    assert AeadCorrect(c) && ExchangeCorrect(c) && OutputLengths(c) && SignCorrect(c) && ExpandApart(c, prk);
  }

  lemma {:induction false} TaggedApart(c: Crypto, prk: Bytes)
    requires c.expand == Tagged
    ensures ExpandApart(c, prk)
  {
    hide KeyOf, Tagged;
    ExpandLabelsDistinct();
    forall l, e: nat, m, f: nat | l in {LBL_I2R, LBL_R2I} && m in {LBL_I2R, LBL_R2I} && e < 256 && f < 256
      ensures KeyOf(c, prk, l, e) == KeyOf(c, prk, m, f) ==> KeyInput(c, prk, l, e) == KeyInput(c, prk, m, f)
    {
      TaggedKey(c, prk, l, e);
      TaggedKey(c, prk, m, f);
    }
  }

  /** A session's keys differ in every epoch and in the two directions. */
  lemma {:induction false} KeysDistinct(c: Crypto, prk: Bytes, l: Bytes, e: nat, m: Bytes, f: nat)
    requires ExpandApart(c, prk) && l in {LBL_I2R, LBL_R2I} && m in {LBL_I2R, LBL_R2I} && e < 256 && f < 256
    ensures KeyOf(c, prk, l, e) == KeyOf(c, prk, m, f) <==> l == m && e == f
    decreases e
  {
    hide RatchetInfo, KeyOf, ExpandApart;
    ApartAt(c, prk, l, e, m, f);
    ExpandLabelsDistinct();
    if e > 0 {
      InfoIsNoLabel(e - 1);
    }
    if f > 0 {
      InfoIsNoLabel(f - 1);
    }
    if e > 0 && f > 0 {
      if RatchetInfo(e - 1, 0) == RatchetInfo(f - 1, 0) {
        RatchetInfosDistinct(e - 1, 0, f - 1, 0);
      }
      KeysDistinct(c, prk, l, e - 1, m, f - 1);
    }
  }

  lemma {:induction false} ApartAt(c: Crypto, prk: Bytes, l: Bytes, e: nat, m: Bytes, f: nat)
    requires ExpandApart(c, prk) && l in {LBL_I2R, LBL_R2I} && m in {LBL_I2R, LBL_R2I} && e < 256 && f < 256
    ensures KeyOf(c, prk, l, e) == KeyOf(c, prk, m, f) ==> KeyInput(c, prk, l, e) == KeyInput(c, prk, m, f)
  {
    hide KeyOf, KeyInput;
  }

  lemma {:induction false} InfoIsNoLabel(e: byte)
    ensures RatchetInfo(e, 0) !in {LBL_I2R, LBL_R2I}
  {
    assert |RatchetInfo(e, 0)| == 18 && |LBL_I2R| == 14 && |LBL_R2I| == 14;
  }

  /** A sender state on this session's key chain. */
  predicate OnChain(c: Crypto, prk: Bytes, lbl: Bytes, st: SendSt)
  {
    st.key == KeyOf(c, prk, lbl, st.epoch)
  }

  lemma {:induction false} StepOnChain(c: Crypto, prk: Bytes, lbl: Bytes, st: SendSt, op: Op)
    requires OnChain(c, prk, lbl, st)
    ensures OnChain(c, prk, lbl, Do(c, st, op).st)
  {
    hide RecordOf, OuterLen, Seal, EncodeData, RatchetInfo;
  }

  /** Every AEAD use of a run is under its epoch's key. */
  lemma {:induction false} UsesOnChain(c: Crypto, prk: Bytes, lbl: Bytes, st: SendSt, ops: seq<Op>, first: nat)
    requires Running(st) && OutputLengths(c) && OnChain(c, prk, lbl, st)
    ensures forall u :: u in Uses(c, st, ops, first) ==> u.record.key == KeyOf(c, prk, lbl, u.record.epoch)
    decreases |ops|
  {
    hide OutputLengths, Do, Bound, SaltOf, KeyOf;
    if ops != [] {
      StepFacts(c, st, ops[0]);
      StepOnChain(c, prk, lbl, st, ops[0]);
      UsesOnChain(c, prk, lbl, Do(c, st, ops[0]).st, ops[1..], first + 1);
    }
  }

  // ---- nonce use (section 8 of NIST SP 800-38D) ----

  predicate SamePair(u: Use, v: Use)
  {
    u.record.key == v.record.key && u.record.nonce == v.record.nonce
  }

  /** No (key, nonce) pair is used twice. */
  predicate NoNonceReuse(us: seq<Use>)
  {
    forall i, j :: 0 <= i < j < |us| ==> !SamePair(us[i], us[j])
  }

  /** After a Send that sealed and failed, nothing is sealed until the next epoch. */
  predicate StopsAfterFailure(us: seq<Use>)
  {
    forall i :: 0 <= i < |us| - 1 && !us[i].ok ==> us[i].record.epoch != us[i + 1].record.epoch
  }

  lemma {:induction false} SamePosition(u: Use, v: Use, dir: byte)
    requires Bound(u.record, dir) && Bound(v.record, dir) && u.record.epoch == v.record.epoch
    requires SaltOf(u.record) == SaltOf(v.record)
    ensures u.record.nonce == v.record.nonce <==> Pos(u.record) == Pos(v.record)
  {
    hide BE;
    PowFacts();
    assert u.record.nonce == u.record.nonce[..4] + u.record.nonce[4..];
    assert v.record.nonce == v.record.nonce[..4] + v.record.nonce[4..];
    if u.record.nonce == v.record.nonce {
      BEInjective(u.record.counter, v.record.counter, 8);
    }
  }

  /** Within an epoch the key is one, and two uses share a nonce when they share a position. */
  lemma {:induction false} NonceIsPosition(c: Crypto, st: SendSt, ops: seq<Op>, i: nat, j: nat)
    requires Running(st) && OutputLengths(c)
    requires i < j < |Uses(c, st, ops, 0)|
    requires Uses(c, st, ops, 0)[i].record.epoch == Uses(c, st, ops, 0)[j].record.epoch
    ensures var (u, v) := (Uses(c, st, ops, 0)[i].record, Uses(c, st, ops, 0)[j].record);
      u.key == v.key && (u.nonce == v.nonce <==> Pos(u) == Pos(v))
  {
    hide OutputLengths, Uses, Bound, Running;
    UsesOrdered(c, st, ops, 0);
    UsesPlaced(c, st, ops, 0);
    var us := Uses(c, st, ops, 0);
    assert Placed(st, ops, 0, us[i]) && Placed(st, ops, 0, us[j]) && Follows(us[i], us[j]);
    SamePosition(us[i], us[j], st.dir);
  }

  /**
   Exactly when the nonces of one direction are fresh, over all its epochs. The counter moves only after
   the write, so a Send that sealed and then failed leaves its nonce to the next one; reuse is avoided
   precisely by not sealing again in that epoch.
   */
  lemma {:induction false} NoncesFresh(c: Crypto, prk: Bytes, lbl: Bytes, st: SendSt, ops: seq<Op>)
    requires Running(st) && OutputLengths(c) && ExpandApart(c, prk)
    requires lbl in {LBL_I2R, LBL_R2I} && OnChain(c, prk, lbl, st)
    ensures NoNonceReuse(Uses(c, st, ops, 0)) <==> StopsAfterFailure(Uses(c, st, ops, 0))
  {
    hide OutputLengths, Uses, Bound, Running, ExpandApart, OnChain, KeyOf;
    var us := Uses(c, st, ops, 0);
    UsesOrdered(c, st, ops, 0);
    UsesOnChain(c, prk, lbl, st, ops, 0);
    forall i | 0 <= i < |us| - 1 && !us[i].ok && us[i].record.epoch == us[i + 1].record.epoch
      ensures !NoNonceReuse(us)
    {
      FailureRepeats(c, st, ops, 0, i);
      NonceIsPosition(c, st, ops, i, i + 1);
      assert SamePair(us[i], us[i + 1]);
    }
    if StopsAfterFailure(us) {
      forall i, j | 0 <= i < j < |us|
        ensures !SamePair(us[i], us[j])
      {
        if us[i].record.epoch == us[j].record.epoch {
          NonceIsPosition(c, st, ops, i, j);
          FailuresSeparate(us, i, j);
        } else {
          assert us[i] in us && us[j] in us;
          KeysDistinct(c, prk, lbl, us[i].record.epoch, lbl, us[j].record.epoch);
        }
      }
    }
  }

  lemma {:induction false} FailuresSeparate(us: seq<Use>, i: nat, j: nat)
    requires i < j < |us| && StopsAfterFailure(us) && us[i].record.epoch == us[j].record.epoch
    requires Ordered(us)
    ensures Pos(us[i].record) < Pos(us[j].record)
  {
    assert Follows(us[i], us[j]) && Follows(us[i], us[i + 1]);
    assert us[i + 1].record.epoch <= us[j].record.epoch by {
      if i + 1 < j {
        assert Follows(us[i + 1], us[j]);
      }
    }
    assert us[i].ok;
  }

  /** The two directions never share a key, in any epochs. */
  lemma {:induction false} DirectionsApart(c: Crypto, prk: Bytes, a: SendSt, b: SendSt, opsA: seq<Op>, opsB: seq<Op>)
    requires OutputLengths(c) && ExpandApart(c, prk) && Running(a) && Running(b)
    requires OnChain(c, prk, LBL_I2R, a) && OnChain(c, prk, LBL_R2I, b)
    ensures forall u, v :: u in Uses(c, a, opsA, 0) && v in Uses(c, b, opsB, 0) ==> !SamePair(u, v)
  {
    hide OutputLengths, Uses, Running, ExpandApart, OnChain, KeyOf;
    UsesOnChain(c, prk, LBL_I2R, a, opsA, 0);
    UsesOnChain(c, prk, LBL_R2I, b, opsB, 0);
    ExpandLabelsDistinct();
    forall u, v | u in Uses(c, a, opsA, 0) && v in Uses(c, b, opsB, 0)
      ensures !SamePair(u, v)
    {
      KeysDistinct(c, prk, LBL_I2R, u.record.epoch, LBL_R2I, v.record.epoch);
    }
  }

  /**
   A whole session, both directions and all epochs: no (key, nonce) pair is used twice if and only if
   neither end seals again, in the same epoch, after a Send that sealed and failed.
   */
  lemma {:induction false} SessionNoncesFresh(c: Crypto, prk: Bytes, nowI: int, nowR: int, opsI: seq<Op>, opsR: seq<Op>)
    requires OutputLengths(c) && ExpandApart(c, prk)
    ensures var keys := ExpandAll(c, prk);
            var i := Uses(c, FirstSend(ROLE_I, keys, nowI), opsI, 0);
            var r := Uses(c, FirstSend(ROLE_R, keys, nowR), opsR, 0);
      NoNonceReuse(i + r) <==> StopsAfterFailure(i) && StopsAfterFailure(r)
  {
    hide OutputLengths, Uses, ExpandApart, StopsAfterFailure;
    var keys := ExpandAll(c, prk);
    var a, b := FirstSend(ROLE_I, keys, nowI), FirstSend(ROLE_R, keys, nowR);
    assert Running(a) && Running(b) by { SaltLengths(c, prk); }
    NoncesFresh(c, prk, LBL_I2R, a, opsI);
    NoncesFresh(c, prk, LBL_R2I, b, opsR);
    DirectionsApart(c, prk, a, b, opsI, opsR);
    ReuseSplits(Uses(c, a, opsI, 0), Uses(c, b, opsR, 0));
  }

  lemma {:induction false} SaltLengths(c: Crypto, prk: Bytes)
    requires OutputLengths(c)
    ensures |ExpandAll(c, prk).saltI2R| == 4 && |ExpandAll(c, prk).saltR2I| == 4
  {
  }

  lemma {:induction false} ReuseSplits(us: seq<Use>, vs: seq<Use>)
    requires forall u, v :: u in us && v in vs ==> !SamePair(u, v)
    ensures NoNonceReuse(us + vs) <==> NoNonceReuse(us) && NoNonceReuse(vs)
  {
    hide SamePair;
    var all := us + vs;
    if NoNonceReuse(all) {
      forall i, j | 0 <= i < j < |us| ensures !SamePair(us[i], us[j]) { assert !SamePair(all[i], all[j]); }
      forall i, j | 0 <= i < j < |vs| ensures !SamePair(vs[i], vs[j])
      {
        assert !SamePair(all[|us| + i], all[|us| + j]);
      }
    }
    if NoNonceReuse(us) && NoNonceReuse(vs) {
      forall i, j | 0 <= i < j < |all| ensures !SamePair(all[i], all[j])
      {
        if i < |us| <= j {
          assert all[i] in us && all[j] in vs;
        } else if |us| <= i {
          assert !SamePair(vs[i - |us|], vs[j - |us|]);
        } else {
          assert !SamePair(us[i], us[j]);
        }
      }
    }
  }

  // ---- different derivations ----

  /**
   Two derivations, full or resumed, share a session key only when they are the same derivation: same
   kind, same transcript digest, same secrets. In particular no resumption has the keys of a full handshake.
   */
  lemma {:induction false} DerivationsApart(c: Crypto, h: Bytes, x: Bytes, l: Bytes, a: Bytes,
                                            g: Bytes, y: Bytes, m: Bytes, b: Bytes)
    requires |x| == 32 && |y| == 32 && |a| == 32 && |b| == 32
    requires l in {LBL_MLKEM, LBL_RESUMPTION} && m in {LBL_MLKEM, LBL_RESUMPTION}
    requires var (p, q) := (c.extract(Ikm(x, l, a), h), c.extract(Ikm(y, m, b), g));
      && (p == q ==> Ikm(x, l, a) == Ikm(y, m, b) && h == g)
      && (c.expand(p, LBL_I2R, 32) == c.expand(q, LBL_I2R, 32) ==> p == q)
    requires ExpandAll(c, c.extract(Ikm(x, l, a), h)).kI2R == ExpandAll(c, c.extract(Ikm(y, m, b), g)).kI2R
    ensures x == y && l == m && a == b && h == g
  {
    hide Ikm;
    IkmInjective(x, l, a, y, m, b);
  }
}
