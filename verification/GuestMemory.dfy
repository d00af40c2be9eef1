/** Guest RAM as bytes, its little-endian fields, and the kernel's entropy source. */
module GuestMemory {
  import opened Bytes
  import opened GuestLayout

  function Le16(m: seq<byte>, a: nat): (r: nat)
    requires a + 2 <= |m|
    ensures r < 0x1_0000
  {
    m[a] as nat + 0x100 * (m[a + 1] as nat)
  }

  function Le32(m: seq<byte>, a: nat): (r: nat)
    requires a + 4 <= |m|
    ensures r < 0x1_0000_0000
  {
    Le16(m, a) + 0x1_0000 * Le16(m, a + 2)
  }

  function Le64(m: seq<byte>, a: nat): nat
    requires a + 8 <= |m|
  {
    Le32(m, a) + 0x1_0000_0000 * Le32(m, a + 4)
  }

  function Load16(mem: array<byte>, a: nat): (r: nat)
    requires a + 2 <= mem.Length
    reads mem
    ensures r == Le16(mem[..], a) && r < 0x1_0000
  {
    mem[a] as nat + 0x100 * (mem[a + 1] as nat)
  }

  function Load32(mem: array<byte>, a: nat): (r: nat)
    requires a + 4 <= mem.Length
    reads mem
    ensures r == Le32(mem[..], a)
  {
    Load16(mem, a) + 0x1_0000 * Load16(mem, a + 2)
  }

  function Load64(mem: array<byte>, a: nat): (r: nat)
    requires a + 8 <= mem.Length
    reads mem
    ensures r == Le64(mem[..], a)
  {
    Load32(mem, a) + 0x1_0000_0000 * Load32(mem, a + 4)
  }

  /** m and m' agree on the addresses lo to hi. */
  predicate Agree(m: seq<byte>, m': seq<byte>, lo: nat, hi: nat)
    requires hi <= |m| == |m'|
  {
    forall a :: lo <= a < hi ==> m'[a] == m[a]
  }

  method Store16(mem: array<byte>, a: nat, v: nat)
    requires a + 2 <= mem.Length && v < 0x1_0000
    modifies mem
    ensures Le16(mem[..], a) == v
    ensures Agree(old(mem[..]), mem[..], 0, a) && Agree(old(mem[..]), mem[..], a + 2, mem.Length)
  {
    mem[a], mem[a + 1] := (v % 0x100) as byte, (v / 0x100) as byte;
  }

  method Store32(mem: array<byte>, a: nat, v: nat)
    requires a + 4 <= mem.Length && v < 0x1_0000_0000
    modifies mem
    ensures Le32(mem[..], a) == v
    ensures Agree(old(mem[..]), mem[..], 0, a) && Agree(old(mem[..]), mem[..], a + 4, mem.Length)
  {
    Store16(mem, a, v % 0x1_0000);
    Store16(mem, a + 2, v / 0x1_0000);
  }

  lemma SameFields(m: seq<byte>, m': seq<byte>, lo: nat, hi: nat, a: nat)
    requires hi <= |m| == |m'| && lo <= a && Agree(m, m', lo, hi)
    ensures a + 2 <= hi ==> Le16(m', a) == Le16(m, a)
    ensures a + 4 <= hi ==> Le32(m', a) == Le32(m, a)
    ensures a + 8 <= hi ==> Le64(m', a) == Le64(m, a)
  {
  }

  // ---- entropy -------------------------------------------------------------------

  /** What one getrandom call reports: EINTR, another error, or bytes (none at all is a failure too). */
  datatype Reply = Interrupted | Failed | Bytes(data: seq<byte>)

  /** n is the first call from c on that is not interrupted. */
  ghost predicate NextAnswer(replies: nat -> Reply, c: nat, n: nat) {
    c <= n && !replies(n).Interrupted? && forall k :: c <= k < n ==> replies(k).Interrupted?
  }

  ghost predicate Answered(replies: nat -> Reply, c: nat) {
    exists n: nat :: NextAnswer(replies, c, n)
  }

  /** Interruptions never go on for ever. */
  ghost predicate EventuallyAnswers(replies: nat -> Reply) {
    forall c: nat :: Answered(replies, c)
  }

  ghost function Wait(replies: nat -> Reply, c: nat): (w: nat)
    requires EventuallyAnswers(replies)
    ensures NextAnswer(replies, c, c + w)
  {
    assert Answered(replies, c);
    var n: nat :| NextAnswer(replies, c, n);
    n - c
  }

  datatype Draw = Draw(ok: bool, data: seq<byte>, next: nat)

  /** The bytes the calls from c on deliver towards need, and the call that follows. */
  ghost function Deliver(replies: nat -> Reply, c: nat, need: nat): (d: Draw)
    requires EventuallyAnswers(replies)
    ensures |d.data| <= need && (d.ok <==> |d.data| == need)
    decreases need, Wait(replies, c)
  {
    if need == 0 then Draw(true, [], c)
    else
      match replies(c)
      case Interrupted => assert Wait(replies, c) == Wait(replies, c + 1) + 1; Deliver(replies, c + 1, need)
      case Failed => Draw(false, [], c + 1)
      case Bytes(data) =>
        if data == [] then Draw(false, [], c + 1)
        else
          var take := if |data| < need then |data| else need;
          var rest := Deliver(replies, c + 1, need - take);
          Draw(rest.ok, data[..take] + rest.data, rest.next)
  }

  /** One call of Deliver, with what was asked for cut to what is still needed. */
  lemma DeliverStep(replies: nat -> Reply, c: nat, need: nat)
    requires EventuallyAnswers(replies) && need > 0
    ensures replies(c).Interrupted? ==>
              Deliver(replies, c, need) == Deliver(replies, c + 1, need) && Wait(replies, c + 1) < Wait(replies, c)
    ensures replies(c).Failed? || replies(c) == Bytes([]) ==> Deliver(replies, c, need) == Draw(false, [], c + 1)
    ensures replies(c).Bytes? && replies(c).data != [] ==>
              var take := if |replies(c).data| < need then |replies(c).data| else need;
              Extends(Deliver(replies, c, need), replies(c).data[..take], Deliver(replies, c + 1, need - take))
  {
    if replies(c).Interrupted? {
      assert Wait(replies, c) == Wait(replies, c + 1) + 1;
    }
  }

  lemma DeliverNothing(replies: nat -> Reply, c: nat)
    requires EventuallyAnswers(replies)
    ensures Deliver(replies, c, 0) == Draw(true, [], c)
  {
  }

  lemma SuffixStep(s: seq<byte>, n: nat, a: seq<byte>, b: seq<byte>)
    requires n <= |s| && s[n..] == a + b
    ensures n + |a| <= |s| && s[n + |a|..] == b
    ensures forall i :: 0 <= i < |a| ==> s[n + i] == a[i]
  {
    forall i | 0 <= i < |a|
      ensures s[n + i] == a[i]
    {
      assert s[n..][i] == (a + b)[i];
    }
    assert s[n + |a|..] == s[n..][|a|..];
  }

  ghost predicate Extends(d: Draw, prefix: seq<byte>, rest: Draw) {
    d == Draw(rest.ok, prefix + rest.data, rest.next)
  }

  method StoreBytes(mem: array<byte>, at: nat, data: seq<byte>)
    requires at + |data| <= mem.Length
    modifies mem
    ensures forall i :: 0 <= i < |data| ==> mem[at + i] == data[i]
    ensures Agree(old(mem[..]), mem[..], 0, at) && Agree(old(mem[..]), mem[..], at + |data|, mem.Length)
  {
    forall i | 0 <= i < |data| {
      mem[at + i] := data[i];
    }
  }

  class EntropySource {
    const replies: nat -> Reply
    var calls: nat

    constructor (replies: nat -> Reply)
      ensures this.replies == replies && calls == 0
    {
      this.replies := replies;
      calls := 0;
    }

    method GetRandom(want: nat) returns (reply: Reply)
      requires want > 0
      modifies this`calls
      ensures calls == old(calls) + 1
      ensures var r := replies(old(calls));
              reply == if r.Bytes? && |r.data| > want then Bytes(r.data[..want]) else r
    {
      reply := replies(calls);
      calls := calls + 1;
      if reply.Bytes? && |reply.data| > want {
        reply := Bytes(reply.data[..want]);
      }
    }
  }

  /** The first filled bytes at at are data's, and nothing outside the want bytes there changed. */
  predicate Filling(m: seq<byte>, m': seq<byte>, at: nat, want: nat, data: seq<byte>, filled: nat)
    requires |m| == |m'| && at + want <= |m| && filled <= |data|
  {
    && (filled <= want && forall i :: 0 <= i < filled ==> m'[at + i] == data[i])
    && Agree(m, m', 0, at) && Agree(m, m', at + want, |m|)
  }

  lemma FillingMore(m: seq<byte>, m1: seq<byte>, m2: seq<byte>, at: nat, want: nat,
                    data: seq<byte>, filled: nat, more: seq<byte>)
    requires |m| == |m1| == |m2| && at + want <= |m| && filled + |more| <= |data| && filled + |more| <= want
    requires Filling(m, m1, at, want, data, filled)
    requires forall i :: 0 <= i < |more| ==> m2[at + filled + i] == more[i] && data[filled + i] == more[i]
    requires Agree(m1, m2, 0, at + filled) && Agree(m1, m2, at + filled + |more|, |m|)
    ensures Filling(m, m2, at, want, data, filled + |more|)
  {
    forall i | 0 <= i < filled + |more|
      ensures m2[at + i] == data[i]
    {
      if i >= filled {
        assert m2[at + filled + (i - filled)] == more[i - filled];
      }
    }
  }

  lemma NothingFilled(m: seq<byte>, at: nat, want: nat, data: seq<byte>)
    requires at + want <= |m|
    ensures Filling(m, m, at, want, data, 0)
  {
  }

  lemma WholeFilling(m: seq<byte>, m': seq<byte>, at: nat, want: nat, data: seq<byte>, filled: nat)
    requires |m| == |m'| && at + want <= |m| && filled <= |data|
    requires Filling(m, m', at, want, data, filled) && data[filled..] == []
    ensures forall i :: 0 <= i < |data| ==> m'[at + i] == data[i]
    ensures Agree(m, m', 0, at) && Agree(m, m', at + want, |m|)
  {
    assert filled == |data|;
  }

  /** Fills mem[at..at + want], retrying interrupted calls; stops at the first real failure. */
  method FillEntropy(mem: array<byte>, at: nat, want: nat, source: EntropySource) returns (ok: bool)
    requires at + want <= mem.Length && EventuallyAnswers(source.replies)
    modifies mem, source`calls
    ensures var d := Deliver(source.replies, old(source.calls), want);
            ok == d.ok && source.calls == d.next && forall i :: 0 <= i < |d.data| ==> mem[at + i] == d.data[i]
    ensures Agree(old(mem[..]), mem[..], 0, at) && Agree(old(mem[..]), mem[..], at + want, mem.Length)
  {
    hide Deliver, Wait, NextAnswer, Answered, EventuallyAnswers, Filling, Agree;
    var filled := 0;
    ghost var m := mem[..];
    ghost var d := Deliver(source.replies, source.calls, want);
    NothingFilled(m, at, want, d.data);
    while filled < want
      invariant filled <= |d.data| <= want
      invariant var rest := Deliver(source.replies, source.calls, want - filled);
                d.ok == rest.ok && d.next == rest.next && d.data[filled..] == rest.data
      invariant Filling(m, mem[..], at, want, d.data, filled)
      decreases want - filled, Wait(source.replies, source.calls)
    {
      ghost var c := source.calls;
      var reply := source.GetRandom(want - filled);
      DeliverStep(source.replies, c, want - filled);
      match reply {
        case Interrupted =>
        case Failed =>
          WholeFilling(m, mem[..], at, want, d.data, filled);
          return false;
        case Bytes(data) =>
          if data == [] {
            WholeFilling(m, mem[..], at, want, d.data, filled);
            return false;
          }
          SuffixStep(d.data, filled, data, Deliver(source.replies, source.calls, want - filled - |data|).data);
          ghost var before := mem[..];
          StoreBytes(mem, at + filled, data);
          FillingMore(m, before, mem[..], at, want, d.data, filled, data);
          filled := filled + |data|;
      }
    }
    DeliverNothing(source.replies, source.calls);
    WholeFilling(m, mem[..], at, want, d.data, filled);
    ok := true;
  }
}
