/** The hash-chained transcript, the string AUTH signs, and what equal digests say about their inputs. */
module Transcripts {
  import opened ByteStrings
  import opened Frames
  import opened Primitives

  function HelloInput(suite: byte, hello: Bytes): Bytes
  {
    LBL_PROTOCOL + [0, suite] + hello
  }

  function KemInput(h0: Bytes, init: Bytes, reply: Bytes): Bytes
  {
    h0 + init + reply
  }

  function FullInput(h1: Bytes, pkI: Bytes, pkR: Bytes, schemes: Bytes): Bytes
  {
    h1 + pkI + pkR + BE(|schemes| % TWO32, 4) + schemes
  }

  /** Everything a full handshake's transcript covers. */
  datatype Script = Script(suite: byte, hello: Bytes, init: Bytes, reply: Bytes, pkI: Bytes, pkR: Bytes, schemes: Bytes)

  function H0(c: Crypto, suite: byte, hello: Bytes): Bytes
  {
    c.hash(HelloInput(suite, hello))
  }

  function H1(c: Crypto, s: Script): Bytes
  {
    c.hash(KemInput(H0(c, s.suite, s.hello), s.init, s.reply))
  }

  function H2(c: Crypto, s: Script): Bytes
  {
    c.hash(FullInput(H1(c, s), s.pkI, s.pkR, s.schemes))
  }

  function H2Psk(c: Crypto, suite: byte, hello: Bytes, eph: Bytes): Bytes
  {
    c.hash(H0(c, suite, hello) + eph)
  }

  datatype Stage = New | Stage0 | Stage1 | Stage2

  class Transcript {
    const c: Crypto
    const suite: byte
    var state: Bytes
    var stage: Stage

    constructor (c: Crypto, suite: byte)
      ensures this.c == c && this.suite == suite && stage == New
    {
      this.c, this.suite, state, stage := c, suite, Zeros(32), New;
    }

    method AbsorbHello(hello: Bytes)
      modifies this`state, this`stage
      ensures state == H0(c, suite, hello) && stage == Stage0
    {
      var h := LBL_PROTOCOL;
      h := h + [0];
      h := h + [suite];
      h := h + hello;
      assert h == HelloInput(suite, hello);
      state := c.hash(h);
      stage := Stage0;
    }

    method AbsorbKem(init: Bytes, reply: Bytes)
      modifies this`state, this`stage
      ensures state == c.hash(KemInput(old(state), init, reply)) && stage == Stage1
    {
      var h := state;
      h := h + init;
      h := h + reply;
      state := c.hash(h);
      stage := Stage1;
    }

    method FinishFull(pkI: Bytes, pkR: Bytes, schemes: Bytes) returns (h2: Bytes)
      modifies this`state, this`stage
      ensures h2 == state == c.hash(FullInput(old(state), pkI, pkR, schemes)) && stage == Stage2
    {
      var h := state;
      h := h + pkI;
      h := h + pkR;
      h := h + BE(|schemes| % TWO32, 4);
      ghost var head := h;
      for i := 0 to |schemes|
        invariant h == head + schemes[..i]
      {
        h := h + [schemes[i]];
      }
      assert schemes[..|schemes|] == schemes;
      state := c.hash(h);
      stage := Stage2;
      return state;
    }

    method FinishPsk(eph: Bytes) returns (h2: Bytes)
      modifies this`state, this`stage
      ensures h2 == state == c.hash(old(state) + eph) && stage == Stage2
    {
      state := c.hash(state + eph);
      stage := Stage2;
      return state;
    }
  }

  // ---- equal digests, equal scripts ----

  predicate WellSized(s: Script)
  {
    |s.init| == X_LEN + KEM_PUB && |s.reply| == X_LEN + KEM_CT + SIG_PUB && |s.pkI| == SIG_PUB && |s.pkR| == SIG_PUB
  }

  function Hashed(c: Crypto, s: Script): set<Bytes>
  {
    {HelloInput(s.suite, s.hello), KemInput(H0(c, s.suite, s.hello), s.init, s.reply),
     FullInput(H1(c, s), s.pkI, s.pkR, s.schemes)}
  }

  lemma {:induction false} HelloInputInjective(s: byte, a: Bytes, t: byte, b: Bytes)
    requires HelloInput(s, a) == HelloInput(t, b)
    ensures s == t && a == b
  {
    SplitEqual(LBL_PROTOCOL + [0, s], a, LBL_PROTOCOL + [0, t], b);
    SplitEqual(LBL_PROTOCOL, [0, s], LBL_PROTOCOL, [0, t]);
    assert [0, s][1] == [0, t][1];
  }

  lemma {:induction false} FullInputInjective(h: Bytes, s: Script, k: Bytes, t: Script)
    requires |h| == |k| && WellSized(s) && WellSized(t)
    requires FullInput(h, s.pkI, s.pkR, s.schemes) == FullInput(k, t.pkI, t.pkR, t.schemes)
    ensures h == k && s.pkI == t.pkI && s.pkR == t.pkR && s.schemes == t.schemes
  {
    hide BE;
    var a, b := BE(|s.schemes| % TWO32, 4), BE(|t.schemes| % TWO32, 4);
    PowFacts();
    SplitEqual(h + s.pkI + s.pkR + a, s.schemes, k + t.pkI + t.pkR + b, t.schemes);
    SplitEqual(h + s.pkI + s.pkR, a, k + t.pkI + t.pkR, b);
    SplitEqual(h + s.pkI, s.pkR, k + t.pkI, t.pkR);
    SplitEqual(h, s.pkI, k, t.pkI);
  }

  /** Without hash collisions among the two runs' own inputs, H_2 determines the whole exchange. */
  lemma {:induction false} EqualDigests(c: Crypto, s: Script, t: Script)
    requires OutputLengths(c) && WellSized(s) && WellSized(t)
    requires CollisionFree(c, Hashed(c, s) + Hashed(c, t)) && H2(c, s) == H2(c, t)
    ensures s == t
  {
    hide FullInput, HelloInput, KemInput, WellSized;
    assert FullInput(H1(c, s), s.pkI, s.pkR, s.schemes) == FullInput(H1(c, t), t.pkI, t.pkR, t.schemes);
    FullInputInjective(H1(c, s), s, H1(c, t), t);
    assert KemInput(H0(c, s.suite, s.hello), s.init, s.reply) == KemInput(H0(c, t.suite, t.hello), t.init, t.reply);
    KemInputInjective(H0(c, s.suite, s.hello), s, H0(c, t.suite, t.hello), t);
    assert HelloInput(s.suite, s.hello) == HelloInput(t.suite, t.hello);
    HelloInputInjective(s.suite, s.hello, t.suite, t.hello);
  }

  lemma {:induction false} KemInputInjective(h: Bytes, s: Script, k: Bytes, t: Script)
    requires |h| == |k| && WellSized(s) && WellSized(t)
    requires KemInput(h, s.init, s.reply) == KemInput(k, t.init, t.reply)
    ensures h == k && s.init == t.init && s.reply == t.reply
  {
    SplitEqual(h + s.init, s.reply, k + t.init, t.reply);
    SplitEqual(h, s.init, k, t.init);
  }

  // ---- what AUTH signs ----

  function RoleLabel(role: byte): Bytes
  {
    if role == ROLE_I then LBL_AUTH_I else LBL_AUTH_R
  }

  function SignInput(h2: Bytes, role: byte, suite: byte): Bytes
  {
    LBL_PROTOCOL + [0, suite, 0] + h2 + RoleLabel(role)
  }

  /** The two role labels differ, so no signature serves for the other role. */
  lemma {:induction false} RolesDiffer()
    ensures |LBL_AUTH_I| == |LBL_AUTH_R| && LBL_AUTH_I != LBL_AUTH_R
  {
    assert LBL_AUTH_I[15] == 'i' as int % 256 && LBL_AUTH_R[15] == 'r' as int % 256;
  }

  lemma {:induction false} SignInputInjective(h: Bytes, r: byte, s: byte, k: Bytes, q: byte, t: byte)
    requires |h| == |k| && r in {ROLE_I, ROLE_R} && q in {ROLE_I, ROLE_R}
    requires SignInput(h, r, s) == SignInput(k, q, t)
    ensures h == k && r == q && s == t
  {
    RolesDiffer();
    SplitEqual(LBL_PROTOCOL + [0, s, 0] + h, RoleLabel(r), LBL_PROTOCOL + [0, t, 0] + k, RoleLabel(q));
    SplitEqual(LBL_PROTOCOL + [0, s, 0], h, LBL_PROTOCOL + [0, t, 0], k);
    SplitEqual(LBL_PROTOCOL, [0, s, 0], LBL_PROTOCOL, [0, t, 0]);
    assert [0, s, 0][1] == [0, t, 0][1];
  }

  // ---- the digest of a resumption ----

  /** Without hash collisions among the inputs, it determines suite, HELLO_PSK and the responder's share. */
  lemma {:induction false} EqualPskDigests(c: Crypto, s: byte, hello: Bytes, eph: Bytes, t: byte, other: Bytes,
                                           e: Bytes)
    requires OutputLengths(c) && |eph| == |e|
    requires CollisionFree(c, {HelloInput(s, hello), H0(c, s, hello) + eph, HelloInput(t, other), H0(c, t, other) + e})
    requires H2Psk(c, s, hello, eph) == H2Psk(c, t, other, e)
    ensures s == t && hello == other && eph == e
  {
    hide HelloInput;
    assert H0(c, s, hello) + eph == H0(c, t, other) + e;
    SplitEqual(H0(c, s, hello), eph, H0(c, t, other), e);
    assert HelloInput(s, hello) == HelloInput(t, other);
    HelloInputInjective(s, hello, t, other);
  }
}
