/**
 The sector loops of the PIO data-in and data-out commands, asgard/services/atac/ataioreg.c, against a
 device that may answer anything (sections 8.6 and 8.7 of ATA-4). There is no DRQ call-back.
 */
module Pio {
  import opened Arithmetic

  /** What the device answers: `wait` is the error code of each `reg_wait_poll`, `status` each status read. */
  datatype Device = Device(wait: nat -> int, status: nat -> bv8)

  /** A block of data moved: where in the caller's buffer, and how many bytes. */
  datatype Packet = Packet(offset: int, size: int)

  // ------------------------------------------------------------------- status

  predicate Busy(s: bv8) { s & 0x80 != 0 }
  predicate Fault(s: bv8) { s & 0x20 != 0 }
  predicate Drq(s: bv8) { s & 0x08 != 0 }
  predicate Error(s: bv8) { s & 0x01 != 0 }

  /** BSY=0 and DRQ=1. */
  predicate Transfers(s: bv8) { s & 0x88 == 0x08 }
  /** BSY, DF or ERR. */
  predicate Faulty(s: bv8) { s & 0xa1 != 0 }
  /** DRQ. */
  predicate Requests(s: bv8) { s & 0x08 != 0 }
  /** BSY, DF, DRQ or ERR. */
  predicate Unfinished(s: bv8) { s & 0xa9 != 0 }

  /** A block is asked for, and there is no fault. */
  predicate Asks(s: bv8) { !Faulty(s) && Requests(s) }

  /** `k` rounds go without a time out, each with a block asked for. */
  ghost predicate Serves(d: Device, k: nat) { forall i: nat :: i < k ==> d.wait(i) == 0 && Asks(d.status(i)) }

  /** A round that goes on has moved data. */
  lemma StatusBits(s: bv8)
    ensures !Faulty(s) && Requests(s) ==> Transfers(s)
    ensures Transfers(s) <==> !Busy(s) && Drq(s)
    ensures Faulty(s) <==> Busy(s) || Fault(s) || Error(s)
    ensures Requests(s) <==> Drq(s)
    ensures Unfinished(s) <==> Busy(s) || Fault(s) || Drq(s) || Error(s)
  {
  }

  // ------------------------------------------------------------------ packets

  /** Rounds that `n` sectors take, `m` at a time. */
  function Rounds(n: nat, m: nat): (r: nat)
    requires m > 0
  {
    (n + m - 1) / m
  }

  /** The last round is the one that reaches `n`. */
  lemma RoundsIs(n: nat, m: nat, k: nat)
    requires n > 0 && m > 0 && k > 0 && m * (k - 1) < n <= m * k
    ensures Rounds(n, m) == k
  {
    var x := n + m - 1;
    var q, r := x / m, x % m;
    assert x == m * q + r;
    assert m * k <= x < m * (k + 1) by { assert m * (k - 1) == m * k - m && m * (k + 1) == m * k + m; }
    assert m * (q + 1) == m * q + m;
    if q < k { MulOrder(m, q + 1, k); }
    if q > k { MulOrder(m, k + 1, q); }
  }

  /** A round that leaves sectors is not the last. */
  lemma MoreRounds(n: nat, m: nat, k: nat)
    requires m > 0 && m * k < n
    ensures k < Rounds(n, m)
  {
    var x := n + m - 1;
    var q, r := x / m, x % m;
    assert x == m * q + r;
    assert m * (q + 1) == m * q + m;
    if q <= k { MulOrder(m, q, k); }
  }

  /** The first `k` packets of `n` sectors, `m` at a time. */
  function Cut(n: nat, m: nat, k: nat): seq<Packet>
  {
    if k == 0 then [] else Cut(n, m, k - 1) + [Packet(512 * (m * (k - 1)), 512 * Min(m, n - m * (k - 1)))]
  }

  function Bytes(ps: seq<Packet>): int
  {
    if ps == [] then 0 else Bytes(ps[..|ps| - 1]) + ps[|ps| - 1].size
  }

  /** Each packet is of some bytes and starts where those before it end; all but the last have the same size. */
  ghost predicate Consecutive(ps: seq<Packet>, size: int)
  {
    forall k :: 0 <= k < |ps| ==>
      ps[k].offset == Bytes(ps[..k]) && 0 < ps[k].size <= size && (k < |ps| - 1 ==> ps[k].size == size)
  }

  /** The packets of the first `k` rounds are consecutive and hold the first sectors, up to all `n` of them. */
  lemma {:induction false} CutCovers(n: nat, m: nat, k: nat)
    requires m > 0 && (k > 0 ==> m * (k - 1) < n)
    ensures |Cut(n, m, k)| == k && Consecutive(Cut(n, m, k), 512 * m)
    ensures Bytes(Cut(n, m, k)) == 512 * Min(n, m * k)
  {
    hide Cut, Consecutive, Bytes;
    if k == 0 {
      CutNone(n, m);
    } else {
      var a, b := m * (k - 1), m * k;
      MulStep(m, k);
      if k > 1 { MulStep(m, k - 1); }
      CutCovers(n, m, k - 1);
      CutFull(n, m, k - 1);
      CutStep(n, m, k);
      AppendPacket(Cut(n, m, k - 1), n, m, a);
    }
  }

  lemma CutNone(n: nat, m: nat)
    ensures Cut(n, m, 0) == [] && Bytes([]) == 0 && Consecutive([], 512 * m) && m * 0 == 0
  {
  }

  lemma CutStep(n: nat, m: nat, k: nat)
    requires k > 0
    ensures Cut(n, m, k) == Cut(n, m, k - 1) + [Packet(512 * (m * (k - 1)), 512 * Min(m, n - m * (k - 1)))]
  {
  }

  /** A command that ends without error has moved all `n` sectors, in order and without gaps or overlap. */
  lemma AllRounds(n: nat, m: nat)
    requires n > 0 && m > 0
    ensures var ps := Cut(n, m, Rounds(n, m));
      |ps| == Rounds(n, m) && Consecutive(ps, 512 * m) && Bytes(ps) == 512 * n
  {
    var r := Rounds(n, m);
    LastRound(n, m);
    hide Rounds, Consecutive, Bytes, Cut;
    CutCovers(n, m, r);
  }

  lemma LastRound(n: nat, m: nat)
    requires n > 0 && m > 0
    ensures var r := Rounds(n, m); r > 0 && m * (r - 1) < n <= m * r
  {
    var x := n + m - 1;
    var q, r := x / m, x % m;
    assert x == m * q + r;
    MulStep(m, q);
    if q <= 0 { MulOrder(m, q, 0); }
  }

  /** Packets before the last are full. */
  lemma CutFull(n: nat, m: nat, k: nat)
    requires m * k < n
    ensures k > 0 ==> |Cut(n, m, k)| > 0 && Cut(n, m, k)[|Cut(n, m, k)| - 1].size == 512 * m
  {
    MulStep(m, k);
  }

  lemma AppendPacket(c: seq<Packet>, n: nat, m: nat, a: nat)
    requires m > 0 && Consecutive(c, 512 * m) && Bytes(c) == 512 * a && a < n
    requires c != [] ==> c[|c| - 1].size == 512 * m
    ensures var c' := c + [Packet(512 * a, 512 * Min(m, n - a))];
      Consecutive(c', 512 * m) && Bytes(c') == 512 * Min(n, a + m)
  {
    var c' := c + [Packet(512 * a, 512 * Min(m, n - a))];
    assert c'[..|c|] == c;
    assert forall k :: 0 <= k <= |c| ==> c'[..k] == c[..k];
  }

  // ------------------------------------------------------------------ channel

  /** The fields of `struct ata_channel` that the loops use. */
  class Channel {
    var ec: int
    var totalBytes: int
    var drqPackets: int
    var bufferSize: int
    ghost var packets: seq<Packet>

    /** After `sub_zero_return_data`. */
    ghost predicate Ready()
      reads this
    {
      ec == 0 && totalBytes == 0 && drqPackets == 0 && packets == [] && bufferSize >= 0
    }

    /** One DRQ block: the body of the `if` at lines 718-783 and 1101-1164. `ok` is false on a buffer overrun. */
    method Block(n: nat, m: nat, ghost k: nat, left: int, at: int) returns (ok: bool)
      requires m > 0 && left == n - m * k && left > 0 && at == 512 * (m * k)
      requires packets == Cut(n, m, k) && totalBytes == Bytes(packets) <= bufferSize && drqPackets == k && ec == 0
      modifies this`ec, this`totalBytes, this`drqPackets, this`packets
      ensures drqPackets == k + 1
      ensures ok <==> 512 * Min(n, m * (k + 1)) <= bufferSize
      ensures ok ==> ec == 0 && packets == Cut(n, m, k + 1) && totalBytes == Bytes(packets) <= bufferSize
      ensures !ok ==> ec == 61 && packets == old(packets) && totalBytes == old(totalBytes)
    {
      BlockBytes(n, m, k);
      hide Cut, Bytes;
      drqPackets := drqPackets + 1;
      var words := m;
      if words > left { words := left; }
      words := words * 256;
      if totalBytes + 2 * words > bufferSize {
        ec := 61;
        return false;
      }
      totalBytes := totalBytes + 2 * words;
      packets := packets + [Packet(at, 2 * words)];
      ok := true;
    }

    /** The packets so far are the first ones, and fit in the buffer. */
    ghost predicate Moved(n: nat, m: nat)
      reads this
      requires m > 0
    {
      && |packets| <= Rounds(n, m) && packets == Cut(n, m, |packets|) && totalBytes == Bytes(packets) <= bufferSize
    }

    /** `k` rounds have been served, and sectors are left. */
    ghost predicate Going(n: nat, m: nat, k: nat)
      reads this
    {
      && m * k < n && packets == Cut(n, m, k) && |packets| == k == drqPackets && ec == 0
      && totalBytes == Bytes(packets) <= bufferSize
    }

    /** How a command ends: without error just when `good`, and then with everything moved. */
    ghost predicate Ended(n: nat, m: nat, good: bool)
      reads this
      requires m > 0
    {
      && Moved(n, m) && (ec == 0 <==> good && 512 * n <= bufferSize)
      && (ec == 0 ==> drqPackets == |packets| == Rounds(n, m) && totalBytes == 512 * n)
    }

    /** The code with which a read ends in round `k`, by what the device answers. */
    ghost predicate ReadEnds(dev: Device, n: nat, m: nat, k: nat)
      reads this
      requires m > 0
    {
      var s := dev.status(k);
      if dev.wait(k) != 0 then ec == dev.wait(k)
      else if !Busy(s) && Drq(s) && 512 * Min(n, m * (k + 1)) > bufferSize then ec == 61
      else if Busy(s) || Fault(s) || Error(s) then ec == 31
      else if !Drq(s) then ec == 32
      else
        var s' := dev.status(k + 1);
        k + 1 == Rounds(n, m) && ec == if Busy(s') || Fault(s') || Drq(s') || Error(s') then 33 else 0
    }

    /** The same for a write, which waits after the block. */
    ghost predicate WriteEnds(dev: Device, n: nat, m: nat, k: nat)
      reads this
      requires m > 0
    {
      var s := dev.status(k);
      if !Busy(s) && Drq(s) && 512 * Min(n, m * (k + 1)) > bufferSize then ec == 61
      else if Busy(s) || Fault(s) || Error(s) then ec == 41
      else if !Drq(s) then ec == 42
      else if dev.wait(k) != 0 then ec == dev.wait(k)
      else
        var s' := dev.status(k + 1);
        k + 1 == Rounds(n, m) && ec == if Busy(s') || Fault(s') || Drq(s') || Error(s') then 43 else 0
    }

    /** The loop of `exec_pio_data_in_cmd` for `n` sectors. It succeeds just when the buffer has room and the device
        asks for each block without fault and then stops asking. */
    method DataIn(dev: Device, n: nat, multi: nat) returns (failed: bool, rounds: nat)
      requires Ready() && n >= 1
      modifies this`ec, this`totalBytes, this`drqPackets, this`packets
      ensures failed <==> ec != 0
      ensures var m := if multi == 0 then 1 else multi;
        && rounds <= Rounds(n, m) && Ended(n, m, Cooperates(dev, Rounds(n, m)))
        // every round but the last went well, and the last one gives the code
        && rounds > 0 && Serves(dev, rounds - 1) && ReadEnds(dev, n, m, rounds - 1)
    {
      var m := if multi == 0 then 1 else multi;
      hide Cut, Bytes, Rounds, Cooperates;
      CutNone(n, m);
      var left, address, done := n, 0, false;
      rounds := 0;
      while !done
        invariant !done ==> left == n - m * rounds && address == 512 * (m * rounds)
        invariant !done ==> Going(n, m, rounds) && Serves(dev, rounds)
        invariant done ==> rounds <= Rounds(n, m) && Ended(n, m, Cooperates(dev, Rounds(n, m)))
        invariant done ==> rounds > 0 && Serves(dev, rounds - 1) && ReadEnds(dev, n, m, rounds - 1)
        decreases !done, left
      {
        MoreRounds(n, m, rounds);
        MulStep(m, rounds + 1);
        done := ReadRound(dev, n, m, rounds, left, address);
        rounds := rounds + 1;
        left, address := left - m, address + 512 * m;
      }
      failed := ec != 0;
    }

    /** One turn of the read loop. */
    method ReadRound(dev: Device, n: nat, m: nat, k: nat, left: int, address: int) returns (done: bool)
      requires m > 0 && Going(n, m, k) && Serves(dev, k) && left == n - m * k && address == 512 * (m * k)
      modifies this`ec, this`totalBytes, this`drqPackets, this`packets
      ensures done ==> Ended(n, m, Cooperates(dev, Rounds(n, m)))
      ensures done ==> ReadEnds(dev, n, m, k)
      ensures !done ==> Going(n, m, k + 1) && Serves(dev, k + 1)
    {
      hide Cut, Bytes, Rounds, Transfers, Faulty, Requests, Unfinished, Serves, Cooperates, Busy, Fault, Drq, Error;
      done := true;
      var status := dev.status(k);
      StatusBits(status);
      MoreRounds(n, m, k);
      BlockBytes(n, m, k);
      CooperatesStep(dev, k, Rounds(n, m));
      ec := dev.wait(k);
      if ec != 0 { return; }
      if Transfers(status) {
        var ok := Block(n, m, k, left, address);
        if !ok { return; }
      }
      if Faulty(status) { ec := 31; return; }
      if !Requests(status) { ec := 32; return; }
      if left - m < 1 {
        RoundsIs(n, m, k + 1);
        StatusBits(dev.status(k + 1));
        if Unfinished(dev.status(k + 1)) { ec := 33; }
        return;
      }
      done := false;
    }

    /** `exec_pio_data_out_cmd` from the wait for the first block on; `busy` says that BSY never went away, and
        `interrupt` that there was an interrupt that should not have come. */
    method DataOut(dev: Device, n: nat, multi: nat, busy: bool, interrupt: bool) returns (failed: bool, rounds: nat)
      requires Ready() && n >= 1
      modifies this`ec, this`totalBytes, this`drqPackets, this`packets
      ensures failed <==> ec != 0
      ensures var m := if multi == 0 then 1 else multi;
        && rounds <= Rounds(n, m) && Ended(n, m, !busy && !interrupt && Cooperates(dev, Rounds(n, m)))
        && (if busy then rounds == 0 && ec == 47 else if interrupt then rounds == 0 && ec == 46
            else rounds > 0 && Serves(dev, rounds - 1) && WriteEnds(dev, n, m, rounds - 1))
    {
      var m := if multi == 0 then 1 else multi;
      hide Cut, Bytes, Rounds, Cooperates;
      CutNone(n, m);
      var left, address, done := n, 0, false;
      rounds := 0;
      if busy {
        ec := 47;
        done := true;
      }
      if !done && interrupt {
        ec := 46;
        done := true;
      }
      while !done
        invariant !done ==> left == n - m * rounds && address == 512 * (m * rounds)
        invariant !done ==> Going(n, m, rounds) && Serves(dev, rounds)
        invariant !done ==> !busy && !interrupt
        invariant done ==> rounds <= Rounds(n, m) && Ended(n, m, !busy && !interrupt && Cooperates(dev, Rounds(n, m)))
        invariant done && busy ==> rounds == 0 && ec == 47
        invariant done && !busy && interrupt ==> rounds == 0 && ec == 46
        invariant done && !busy && !interrupt ==>
          rounds > 0 && Serves(dev, rounds - 1) && WriteEnds(dev, n, m, rounds - 1)
        decreases !done, left
      {
        MoreRounds(n, m, rounds);
        MulStep(m, rounds + 1);
        done := WriteRound(dev, n, m, rounds, left, address);
        rounds := rounds + 1;
        left, address := left - m, address + 512 * m;
      }
      failed := ec != 0;
    }

    /** One turn of the write loop. */
    method WriteRound(dev: Device, n: nat, m: nat, k: nat, left: int, address: int) returns (done: bool)
      requires m > 0 && Going(n, m, k) && Serves(dev, k) && left == n - m * k && address == 512 * (m * k)
      modifies this`ec, this`totalBytes, this`drqPackets, this`packets
      ensures done ==> Ended(n, m, Cooperates(dev, Rounds(n, m)))
      ensures done ==> WriteEnds(dev, n, m, k)
      ensures !done ==> Going(n, m, k + 1) && Serves(dev, k + 1)
    {
      hide Cut, Bytes, Rounds, Transfers, Faulty, Requests, Unfinished, Serves, Cooperates, Busy, Fault, Drq, Error;
      done := true;
      var status := dev.status(k);
      StatusBits(status);
      MoreRounds(n, m, k);
      BlockBytes(n, m, k);
      CooperatesStep(dev, k, Rounds(n, m));
      if Transfers(status) {
        var ok := Block(n, m, k, left, address);
        if !ok { return; }
      }
      if Faulty(status) { ec := 41; return; }
      if !Requests(status) { ec := 42; return; }
      ec := dev.wait(k);
      if ec != 0 { return; }
      if left - m < 1 {
        RoundsIs(n, m, k + 1);
        StatusBits(dev.status(k + 1));
        if Unfinished(dev.status(k + 1)) { ec := 43; }
        return;
      }
      done := false;
    }
  }

  /** The device asks for all the blocks and then is done. */
  ghost predicate Cooperates(dev: Device, rounds: nat) { Serves(dev, rounds) && !Unfinished(dev.status(rounds)) }

  lemma CooperatesStep(dev: Device, k: nat, rounds: nat)
    requires Serves(dev, k) && k < rounds
    ensures dev.wait(k) == 0 && Asks(dev.status(k)) ==> Serves(dev, k + 1)
    ensures dev.wait(k) != 0 || !Asks(dev.status(k)) ==> !Cooperates(dev, rounds)
    ensures rounds == k + 1 ==>
      (Cooperates(dev, rounds) <==> dev.wait(k) == 0 && Asks(dev.status(k)) && !Unfinished(dev.status(k + 1)))
  {
  }

  lemma BlockBytes(n: nat, m: nat, k: nat)
    requires m > 0 && m * k < n
    ensures m * (k + 1) == m * k + m && |Cut(n, m, k)| == k && |Cut(n, m, k + 1)| == k + 1
    ensures Cut(n, m, k + 1) == Cut(n, m, k) + [Packet(512 * (m * k), 512 * Min(m, n - m * k))]
    ensures Bytes(Cut(n, m, k)) == 512 * (m * k) && Bytes(Cut(n, m, k + 1)) == 512 * Min(n, m * (k + 1))
  {
    MulStep(m, k);
    MulStep(m, k + 1);
    CutCovers(n, m, k);
    CutCovers(n, m, k + 1);
  }
}