/** What a receiver refuses, and that its peer hears of it. */
module Refusals {
  import opened ByteStrings
  import opened Frames
  import opened Primitives
  import opened Records

  /** The error a reader of an ALERT for e returns. */
  function Heard(e: Error): Error
  {
    if OnWire(e) then e else DecodeError
  }

  function AlertOf(code: byte): Frame
  {
    Frame(FRAME_ALERT, EncodeAlert(Alert(code, [])))
  }

  lemma {:induction false} AlertHeard(c: Crypto, e: Error, peer: RecvSt)
    ensures AcceptS(c, peer, AlertOf(AlertForError(e))) == RecvOut(peer, None, Failed(Heard(e)))
  {
    hide EncodeAlert, DecodeAlert, AlertForError, ErrorForAlert;
    AlertRoundTrip(e, []);
  }

  /**
   A refused frame changes nothing, so that what the peer sent is still accepted after it; and unless it
   was itself an ALERT it is answered with one, on which the peer's Recv fails for the same reason.
   */
  lemma {:induction false} RefusalTold(c: Crypto, st: RecvSt, f: Frame, peer: RecvSt)
    requires AcceptS(c, st, f).outcome.Failed?
    ensures var o := AcceptS(c, st, f);
      && o.st == st && (o.alert.None? <==> f.typ == FRAME_ALERT)
      && (o.alert.Some? ==>
            AcceptS(c, peer, AlertOf(o.alert.value)) == RecvOut(peer, None, Failed(Heard(o.outcome.error))))
  {
    hide DecodeData, DecodeAlert, AlertForError, ErrorForAlert, Nonce, Aad, AlertOf;
    AlertHeard(c, AcceptS(c, st, f).outcome.error, peer);
  }

  /** A DATA frame is delivered if and only if its counter is new and below 2^31 and its ciphertext opens. */
  lemma {:induction false} DataExactly(c: Crypto, st: RecvSt, n: nat, ct: Bytes)
    requires n < TWO64 && |ct| < TWO32
    ensures var (o, plain) := (AcceptS(c, st, Frame(FRAME_DATA, EncodeData(Data(n, ct)))),
                                c.open(st.key, Nonce(st.salt, n), Aad(12 + |ct|, st.dir, st.epoch), ct));
      var late := (st.have && n <= st.counter) || n >= 0x8000_0000;
      && (late ==> o.outcome == Failed(NonceViolation))
      && (!late && plain.None? ==> o.outcome == Failed(AuthFailed))
      && (!late && plain.Some? ==>
            && o.outcome.Delivered? && o.outcome.record.payload == plain.value && o.alert.None?
            && o.st == st.(counter := n, have := true))
  {
    hide EncodeData, DecodeData, Nonce, Aad;
    DataRoundTrip(Data(n, ct));
  }

  /** What was delivered once is refused from then on, and so is all that was sealed before it. */
  lemma {:induction false} DeliveredOnce(c: Crypto, st: RecvSt, f: Frame, g: Frame)
    requires f.typ == FRAME_DATA == g.typ && AcceptS(c, st, f).outcome.Delivered?
    requires DecodeData(g.body).Some? && DecodeData(g.body).value.counter <= DecodeData(f.body).value.counter
    ensures AcceptS(c, AcceptS(c, st, f).st, g).outcome == Failed(NonceViolation)
  {
    hide DecodeData, Nonce, Aad, AlertForError;
  }

  /** A REKEY of one byte opens the next epoch with nothing received in it, if there is one; any other is refused. */
  lemma {:induction false} RekeyExactly(c: Crypto, st: RecvSt, body: Bytes)
    ensures var o := AcceptS(c, st, Frame(FRAME_REKEY, body));
      && (|body| != 1 ==> o.outcome == Failed(DecodeError))
      && (|body| == 1 && st.epoch == 255 ==> o.outcome == Failed(EpochExhausted))
      && (|body| == 1 && st.epoch < 255 ==>
            o.outcome == Waiting && o.alert.None? && o.st.epoch == st.epoch + 1 && !o.st.have && o.st.dir == st.dir)
  {
    hide Ratchet;
  }

  /** The associated data of a record determines its length, direction and epoch, and that it is DATA. */
  lemma {:induction false} AadBinds(n: nat, d: byte, e: byte, m: nat, f: byte, g: byte)
    requires n < TWO32 && m < TWO32 && Aad(n, d, e) == Aad(m, f, g)
    ensures n == m && d == f && e == g && Aad(n, d, e)[0] == 0x05
  {
    hide BE;
    PowFacts();
    assert Aad(n, d, e)[1..5] == BE(n, 4) && Aad(m, f, g)[1..5] == BE(m, 4);
    BERoundTrip(n, 4);
    BERoundTrip(m, 4);
    assert Aad(n, d, e)[5] == d && Aad(m, f, g)[5] == f && Aad(n, d, e)[6] == e && Aad(m, f, g)[6] == g;
  }

  /** A frame said to be longer than 16 MiB is not read: Recv fails, past its header, and says nothing. */
  lemma {:induction false} TooLargeFails(c: Crypto, st: RecvSt, stream: Bytes)
    requires |stream| >= 5 && FromBE(stream[1..5]) > 0x100_0000
    ensures RecvS(c, st, stream) == (RecvOut(st, None, Failed(DecodeError)), stream[5..])
  {
    hide FromBE, AcceptS;
  }
}
