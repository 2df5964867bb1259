/** The responder's store of single-use resumption keys. */
module PskStores {
  import opened ByteStrings
  import opened Primitives

  const PSK_TTL: int := 3600 * 1_000_000_000

  datatype Entry = Entry(psk: Bytes, clientId: Bytes, expires: int)

  type Store = map<Bytes, Entry>

  function IssueS(c: Crypto, s: Store, psk: Bytes, clientId: Bytes, now: int): Store
  {
    s[PskId(c, psk) := Entry(psk, clientId, now + PSK_TTL)]
  }

  /** A hit is consumed; so is an expired entry. */
  function RedeemS(s: Store, id: Bytes, now: int): (Store, Option<Entry>)
  {
    if id !in s then (s, None)
    else if now > s[id].expires then (s - {id}, None)
    else (s - {id}, Some(s[id]))
  }

  function SweepS(s: Store, now: int): Store
  {
    map id | id in s && now <= s[id].expires :: s[id]
  }

  class PskStore {
    const c: Crypto
    var entries: Store

    constructor (c: Crypto)
      ensures this.c == c && entries == map[]
    {
      this.c, entries := c, map[];
    }

    method Issue(psk: Bytes, clientId: Bytes, now: int) returns (id: Bytes)
      modifies this`entries
      ensures id == PskId(c, psk) && entries == IssueS(c, old(entries), psk, clientId, now)
    {
      id := PskId(c, psk);
      entries := entries[id := Entry(psk, clientId, now + PSK_TTL)];
    }

    method Redeem(id: Bytes, now: int) returns (hit: Option<Entry>)
      modifies this`entries
      ensures (entries, hit) == RedeemS(old(entries), id, now)
    {
      if id !in entries {
        return None;
      }
      var e := entries[id];
      if now > e.expires {
        entries := entries - {id};
        return None;
      }
      entries := entries - {id};
      return Some(e);
    }

    method Sweep(now: int)
      modifies this`entries
      ensures entries == SweepS(old(entries), now)
    {
      var todo := entries.Keys;
      while todo != {}
        invariant todo <= entries.Keys <= old(entries).Keys
        invariant forall id :: id in entries ==> entries[id] == old(entries)[id]
        invariant forall id :: id in entries && id !in todo ==> now <= entries[id].expires
        invariant forall id :: id in old(entries) && id !in entries ==> now > old(entries)[id].expires
        decreases |todo|
      {
        var id :| id in todo;
        if now > entries[id].expires {
          entries := entries - {id};
        }
        todo := todo - {id};
      }
    }
  }

  // ---- every run of the store ----

  datatype Op = Issue(psk: Bytes, clientId: Bytes, at: int) | Redeem(id: Bytes, now: int) | Sweep(when: int)

  function Do(c: Crypto, s: Store, op: Op): (Store, Option<Entry>)
  {
    match op
    case Issue(p, cid, t) => (IssueS(c, s, p, cid, t), None)
    case Redeem(id, t) => RedeemS(s, id, t)
    case Sweep(t) => (SweepS(s, t), None)
  }

  function After(c: Crypto, ops: seq<Op>): Store
    decreases |ops|
  {
    if ops == [] then map[] else Do(c, After(c, ops[..|ops| - 1]), ops[|ops| - 1]).0
  }

  /** What the j-th operation redeems. */
  function Hit(c: Crypto, ops: seq<Op>, j: nat): Option<Entry>
    requires j < |ops|
  {
    Do(c, After(c, ops[..j]), ops[j]).1
  }

  predicate Touches(c: Crypto, op: Op, id: Bytes)
  {
    (op.Issue? && PskId(c, op.psk) == id) || (op.Redeem? && op.id == id)
  }

  /** Operation i issued this entry under this id, and nothing before n touched the id since. */
  predicate Source(c: Crypto, ops: seq<Op>, i: nat, n: nat, id: Bytes, e: Entry)
  {
    && i < n <= |ops|
    && ops[i].Issue? && PskId(c, ops[i].psk) == id
    && e == Entry(ops[i].psk, ops[i].clientId, ops[i].at + PSK_TTL)
    && (forall k :: i < k < n ==> !Touches(c, ops[k], id))
  }

  lemma {:induction false} EntryIssued(c: Crypto, ops: seq<Op>, n: nat, id: Bytes) returns (i: nat)
    requires n <= |ops| && id in After(c, ops[..n])
    ensures Source(c, ops, i, n, id, After(c, ops[..n])[id])
    decreases n
  {
    hide PskId;
    var p := ops[..n];
    assert p[..n - 1] == ops[..n - 1] && p[n - 1] == ops[n - 1];
    if ops[n - 1].Issue? && PskId(c, ops[n - 1].psk) == id {
      i := n - 1;
    } else {
      i := EntryIssued(c, ops, n - 1, id);
    }
  }

  /**
   Every redemption returns exactly what one earlier Issue stored, within its lifetime, and no two
   redemptions ever come from the same Issue.
   */
  lemma {:induction false} RedeemedAtMostOnce(c: Crypto, ops: seq<Op>, j: nat)
    requires j < |ops| && Hit(c, ops, j).Some?
    ensures ops[j].Redeem?
    ensures exists i: nat :: Source(c, ops, i, j, ops[j].id, Hit(c, ops, j).value) && ops[j].now <= ops[i].at + PSK_TTL
    ensures forall i: nat, k: nat, e :: j < k < |ops| && Source(c, ops, i, k, ops[j].id, e) ==> j < i
  {
    var i := EntryIssued(c, ops, j, ops[j].id);
    assert Source(c, ops, i, j, ops[j].id, Hit(c, ops, j).value);
    forall i: nat, k: nat, e | j < k < |ops| && Source(c, ops, i, k, ops[j].id, e)
      ensures j < i
    {
      assert Touches(c, ops[j], ops[j].id);
    }
  }

  function When(op: Op): int
  {
    match op case Issue(_, _, t) => t case Redeem(_, t) => t case Sweep(t) => t
  }

  /** An entry nothing has touched, still in its lifetime on a clock that does not go back, is there. */
  lemma {:induction false} EntryStays(c: Crypto, ops: seq<Op>, i: nat, n: nat, id: Bytes, e: Entry)
    requires Source(c, ops, i, n, id, e)
    requires forall k :: i < k < n ==> When(ops[k]) <= e.expires
    ensures id in After(c, ops[..n]) && After(c, ops[..n])[id] == e
    decreases n
  {
    hide PskId;
    var p := ops[..n];
    assert p[..n - 1] == ops[..n - 1] && p[n - 1] == ops[n - 1];
    if i < n - 1 {
      assert !Touches(c, ops[n - 1], id) && When(ops[n - 1]) <= e.expires;
      EntryStays(c, ops, i, n - 1, id, e);
    }
  }

  /** With a clock that does not go back, a Redeem succeeds exactly on an untouched, unexpired Issue. */
  lemma {:induction false} RedeemsExactly(c: Crypto, ops: seq<Op>, j: nat, e: Entry)
    requires j < |ops| && ops[j].Redeem? && forall x, y :: 0 <= x <= y < |ops| ==> When(ops[x]) <= When(ops[y])
    ensures Hit(c, ops, j) == Some(e) <==>
      (exists i: nat :: Source(c, ops, i, j, ops[j].id, e) && ops[j].now <= ops[i].at + PSK_TTL)
  {
    hide PskId;
    if Hit(c, ops, j) == Some(e) {
      var i := EntryIssued(c, ops, j, ops[j].id);
    }
    forall i: nat | Source(c, ops, i, j, ops[j].id, e) && ops[j].now <= ops[i].at + PSK_TTL
      ensures Hit(c, ops, j) == Some(e)
    {
      forall k | i < k < j ensures When(ops[k]) <= e.expires { assert When(ops[k]) <= When(ops[j]); }
      EntryStays(c, ops, i, j, ops[j].id, e);
    }
  }

  /** Sweeping changes no Redeem, now or later, and leaves nothing that a Redeem now would refuse. */
  lemma {:induction false} SweepUnseen(s: Store, id: Bytes, now: int, later: int)
    requires now <= later
    ensures RedeemS(SweepS(s, now), id, later).1 == RedeemS(s, id, later).1
    ensures id in SweepS(s, now) ==> RedeemS(SweepS(s, now), id, now).1.Some?
  {
  }
}
