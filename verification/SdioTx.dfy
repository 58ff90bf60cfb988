/** Transmission over SDIO without confirmations: the credits the device grants, the
    packing of frames into one transfer, and the transfer itself (bh_sdio.c,
    hwio_sdio.c). */
module SdioTx {
  import opened Octets

  const SDIO_TX_MAXLEN: nat := 32768
  const WSM_HDR_TX: nat := 8
  const WSM_TX_SEQ_MAX: nat := 7
  const MAX_RETRY: nat := 10

  /** A frame from the queues, with its header; a command waits for its confirmation. */
  datatype TxFrame = TxFrame(data: Bytes, isCommand: bool)

  /** `tx_len` after alignment to blocks of SDIO_BLOCK_SIZE, 256 bytes. */
  function Aligned(len: nat): (a: nat)
    ensures a % 256 == 0 && len <= a && a > 0
    ensures a < len + 256 || len == 0
  {
    var l := if len <= 8 then 16 else len;
    if l % 256 != 0 then l - l % 256 + 256 else l
  }

  /** The header as it is sent: length and checksum in `flag`, the sequence number in the
      upper three bits of `id`. */
  function Stamped(data: Bytes, seqNo: nat): (r: Bytes)
    requires WSM_HDR_TX <= |data| < 0x10000 && seqNo <= WSM_TX_SEQ_MAX
    ensures |r| == |data| && r[8..] == data[8..] && r[4..7] == data[4..7]
  {
    var lo, hi := |data| % 256, |data| / 256;
    var sum := lo + hi;
    var check := if sum >= 256 then (sum + 1) % 256 else sum;
    [lo, hi, 0, check] + data[4..7] + [data[7] % 32 + seqNo * 32] + data[8..]
  }

  /** What the device finds there: the length, its bytes summed with the carry added back,
      and the sequence number beside the id. */
  lemma StampedIs(data: Bytes, seqNo: nat)
    requires WSM_HDR_TX <= |data| < 0x10000 && seqNo <= WSM_TX_SEQ_MAX
    ensures var r := Stamped(data, seqNo);
      && r[0] as int + 256 * (r[1] as int) == |data| && r[2] == 0
      && (r[0] as int + r[1] as int) % 255 == r[3] as int % 255 && (r[3] == 0 <==> r[0] == 0 && r[1] == 0)
      && r[7] / 32 == seqNo && r[7] % 32 == data[7] % 32
  {}

  /** Where the `i`-th frame of a transfer begins. */
  function Offset(q: seq<TxFrame>, i: nat): (o: nat)
    requires i <= |q|
    ensures o % 256 == 0
  {
    if i == 0 then 0 else Offset(q, i - 1) + Aligned(|q[i - 1].data|)
  }

  /** The frames of a transfer do not overlap: each ends before any later one begins. */
  lemma {:induction false} OffsetsApart(q: seq<TxFrame>, i: nat, j: nat)
    requires i < j <= |q|
    ensures Offset(q, i) + |q[i].data| <= Offset(q, i) + Aligned(|q[i].data|) <= Offset(q, j)
    decreases j
  {
    if i + 1 < j { OffsetsApart(q, i, j - 1); }
  }

  /** How many frames from the `at`-th on one transfer takes: as long as there are
      frames, credits and room, and up to the first command. */
  function Taken(q: seq<TxFrame>, at: nat, credits: int, put: nat, size: nat): (n: nat)
    requires at <= |q|
    ensures at + n <= |q| && (n > 0 ==> n <= credits)
    decreases |q| - at
  {
    if at == |q| || credits <= 0 then 0
    else
      var put' := put + Aligned(|q[at].data|);
      if q[at].isCommand || put' + size > SDIO_TX_MAXLEN then 1
      else 1 + Taken(q, at + 1, credits - 1, put', size)
  }

  /** A frame that ends its transfer: a command, or no device buffer more fits behind it. */
  predicate IsLast(q: seq<TxFrame>, i: nat, size: nat)
    requires i < |q|
  {
    q[i].isCommand || Offset(q, i + 1) + size > SDIO_TX_MAXLEN
  }

  /** A transfer takes `n` frames: no earlier frame ends it, and it goes on until one does
      or frames or credits run out. */
  ghost predicate IsTaken(q: seq<TxFrame>, at: nat, credits: int, size: nat, n: nat) {
    && at + n <= |q| && (n > 0 ==> n <= credits)
    && (forall i :: at <= i < at + n - 1 ==> !IsLast(q, i, size))
    && (at + n == |q| || credits <= n || (n > 0 && IsLast(q, at + n - 1, size)))
  }

  lemma {:induction false} TakenIff(q: seq<TxFrame>, at: nat, credits: int, size: nat, n: nat)
    requires at <= |q|
    ensures n == Taken(q, at, credits, Offset(q, at), size) <==> IsTaken(q, at, credits, size, n)
    decreases |q| - at
  {
    if at < |q| && credits > 0 && !IsLast(q, at, size) && n > 0 {
      TakenIff(q, at + 1, credits - 1, size, n - 1);
    }
  }

  /** One of the attempts to write succeeds; `bus` says which would. */
  predicate Succeeds(bus: nat -> bool, retry: nat)
    decreases MAX_RETRY + 1 - retry
  {
    retry <= MAX_RETRY && (bus(retry) || Succeeds(bus, retry + 1))
  }

  /** The attempts are those from `retry` to the tenth. */
  lemma {:induction false} SucceedsIff(bus: nat -> bool, retry: nat)
    ensures Succeeds(bus, retry) <==> exists r: nat :: retry <= r <= MAX_RETRY && bus(r)
    decreases MAX_RETRY + 1 - retry
  {
    if retry <= MAX_RETRY { SucceedsIff(bus, retry + 1); }
  }

  /** The protocol in unbounded counters: `n` buffers of `size` bytes in the device; the
      frames counted out of the credits, those that reached the device, those it has
      dealt with, and how many of these the host knows of. */
  datatype Link = Link(n: nat, size: nat, sent: nat, written: nat, processed: nat, announced: nat)

  /** What happens: the device deals with frames, an event tells the host how many it had
      dealt with at some time, the host makes a transfer. */
  datatype Event = Consume(count: nat) | Announce(upTo: nat) | Transmit(q: seq<TxFrame>, bus: nat -> bool)

  function Credits(s: Link): int { s.announced + s.n - s.sent }

  predicate IsSafe(s: Link) { s.announced <= s.processed <= s.written <= s.sent <= s.announced + s.n }

  /** A frame that may be queued: it has a header, and once aligned it is no larger than
      a buffer of the device. */
  predicate Fits(f: TxFrame, size: nat) { HasHeader(f) && Aligned(|f.data|) <= size }

  predicate HasHeader(f: TxFrame) { WSM_HDR_TX <= |f.data| < 0x10000 }

  /** The frames to be taken have headers, and all of them lie within the transfer buffer. */
  ghost predicate HasRoom(q: seq<TxFrame>, credits: int, size: nat) {
    && (forall i :: 0 <= i < |q| ==> HasHeader(q[i]))
    && Offset(q, Taken(q, 0, credits, 0, size)) <= SDIO_TX_MAXLEN
  }

  /** Which they do, whatever the credits, if every frame fits a buffer of the device and
      that is no larger than the transfer buffer. */
  lemma FitsHasRoom(q: seq<TxFrame>, credits: int, size: nat)
    requires size <= SDIO_TX_MAXLEN && forall i :: 0 <= i < |q| ==> Fits(q[i], size)
    ensures HasRoom(q, credits, size)
  {
    TakenHasRoom(q, 0, credits, 0, size);
  }

  lemma {:induction false} TakenHasRoom(q: seq<TxFrame>, at: nat, credits: int, put: nat, size: nat)
    requires at <= |q| && put == Offset(q, at) && put + size <= SDIO_TX_MAXLEN
    requires forall i :: 0 <= i < |q| ==> Fits(q[i], size)
    ensures Offset(q, at + Taken(q, at, credits, put, size)) <= SDIO_TX_MAXLEN
    decreases |q| - at
  {
    if at < |q| && credits > 0 {
      var put' := put + Aligned(|q[at].data|);
      assert Fits(q[at], size) && put' == Offset(q, at + 1);
      if q[at].isCommand || put' + size > SDIO_TX_MAXLEN {
        assert Taken(q, at, credits, put, size) == 1;
      } else {
        var more := Taken(q, at + 1, credits - 1, put', size);
        assert at + Taken(q, at, credits, put, size) == at + 1 + more;
        TakenHasRoom(q, at + 1, credits - 1, put', size);
      }
    }
  }

  ghost predicate IsLegal(s: Link, e: Event) {
    match e
    case Consume(count) => s.processed + count <= s.written
    case Announce(upTo) => s.announced <= upTo <= s.processed
    case Transmit(q, _) => HasRoom(q, Credits(s), s.size)
  }

  function Step(s: Link, e: Event): Link
    requires IsSafe(s)
  {
    match e
    case Consume(count) => s.(processed := s.processed + count)
    case Announce(upTo) => s.(announced := upTo)
    case Transmit(q, bus) =>
      var t := Taken(q, 0, Credits(s), 0, s.size);
      s.(sent := s.sent + t, written := s.written + if t > 0 && Succeeds(bus, 1) then t else 0)
  }

  /** Some sequence of events leads from `s` to `t`. */
  ghost predicate Leads(s: Link, events: seq<Event>, t: Link)
    decreases |events|
  {
    if events == [] then s == t
    else IsSafe(s) && IsLegal(s, events[0]) && Leads(Step(s, events[0]), events[1..], t)
  }

  /** Over every run the device never holds more frames than it has buffers, and every
      frame that is lost costs a credit for good. */
  lemma {:induction false} RunIsSafe(s: Link, events: seq<Event>, t: Link)
    requires IsSafe(s) && Leads(s, events, t)
    ensures IsSafe(t) && t.n == s.n && t.sent - t.processed <= t.n
    ensures t.sent - t.written >= s.sent - s.written
    ensures Credits(t) <= t.n - (s.sent - s.written)
    decreases |events|
  {
    if events != [] { RunIsSafe(Step(s, events[0]), events[1..], t); }
  }

  /** `(int)x`, for a 32-bit x. */
  function ToInt(x: nat): int
    requires x < 0x1_0000_0000
  {
    if x < 0x8000_0000 then x else x - 0x1_0000_0000
  }

  /** Subtraction of 32-bit counters, for counters that are never far apart. */
  lemma Difference(a: nat, b: nat)
    requires b - 0x8000_0000 <= a < b + 0x8000_0000
    ensures ToInt((a % 0x1_0000_0000 - b % 0x1_0000_0000) % 0x1_0000_0000) == a - b
  {
    var x, y := a % 0x1_0000_0000, b % 0x1_0000_0000;
    var turns := a / 0x1_0000_0000 - b / 0x1_0000_0000;
    assert x - y == a - b - 0x1_0000_0000 * turns;
    assert -1 <= turns <= 1;
  }

  /** `free >= needs` in C, where `free` is an int and `needs` a u32: both are unsigned. */
  predicate Covers(free: int, needs: nat) { free % 0x1_0000_0000 >= needs }

  /** If the counter tells of `told` credits ever granted, and `sent` were spent, the test
      for space is right if and only if no more were spent than were told of. A counter
      older than that makes the difference negative, which counts as plenty of space. */
  lemma SpaceTestIff(told: nat, sent: nat, needs: nat)
    requires sent - 0x8000_0000 <= told < sent + 0x8000_0000 && 0 < needs <= 0x8000_0000
    ensures var free := ToInt((told % 0x1_0000_0000 - sent % 0x1_0000_0000) % 0x1_0000_0000);
            (Covers(free, needs) <==> needs <= told - sent) <==> sent <= told
  {
    Difference(told, sent);
  }

  lemma WrapCount(a: nat)
    ensures (a % 0x1_0000_0000 + 1) % 0x1_0000_0000 == (a + 1) % 0x1_0000_0000
  {}

  lemma WrapIds(a: nat, b: nat)
    ensures (a % 64 + b) % 64 == (a + b) % 64
  {}

  class Host {
    const numInpChBufs: nat
    const sizeInpChBuf: nat
    var hwBufsFree: int
    var nXmits: nat
    var hwXmits: nat
    const xmitBuff: array<byte>
    var xmitBuffPut: nat
    var wsmTxSeq: nat
    var bufIdTx: nat
    var bufIdOffset: nat
    ghost var sent: nat
    ghost var written: nat
    ghost var processed: nat
    ghost var announced: nat

    ghost function State(): Link
      reads this
    {
      Link(numInpChBufs, sizeInpChBuf, sent, written, processed, announced)
    }

    /** The fields hold what is left of the unbounded counters. */
    ghost predicate Valid()
      reads this
    {
      && numInpChBufs < 0x10000 && xmitBuff.Length == SDIO_TX_MAXLEN
      && IsSafe(State())
      && nXmits == sent % 0x1_0000_0000
      && hwXmits == (announced + numInpChBufs) % 0x1_0000_0000
      && 0 <= hwBufsFree <= Credits(State())
      && wsmTxSeq <= WSM_TX_SEQ_MAX && bufIdTx == written % 64
    }

    constructor (numInpChBufs: nat, sizeInpChBuf: nat)
      requires numInpChBufs < 0x10000
      ensures Valid() && fresh(xmitBuff) && State() == Link(numInpChBufs, sizeInpChBuf, 0, 0, 0, 0)
    {
      this.numInpChBufs, this.sizeInpChBuf := numInpChBufs, sizeInpChBuf;
      hwBufsFree, nXmits, hwXmits := numInpChBufs, 0, numInpChBufs;
      xmitBuff := new byte[SDIO_TX_MAXLEN](_ => 0);
      xmitBuffPut, wsmTxSeq, bufIdTx, bufIdOffset := 0, 0, 0, 0;
      sent, written, processed, announced := 0, 0, 0, 0;
    }

    /** An event with the counter of the device as it was at some time since the last. */
    method InputChannelEvent(counter: nat, ghost upTo: nat)
      requires Valid() && announced <= upTo <= processed && counter == (upTo + numInpChBufs) % 0x1_0000_0000
      modifies this`hwXmits, this`announced
      ensures Valid() && State() == old(State()).(announced := upTo)
    {
      hwXmits := counter;
      announced := upTo;
    }

    /** atbm_sdio_have_enough_space: exactly when the device has granted so many. */
    method HaveEnoughSpace(needs: nat) returns (enough: bool)
      requires Valid()
      modifies this`hwBufsFree
      ensures Valid() && enough == (needs <= Credits(State())) && (enough ==> needs <= hwBufsFree)
    {
      enough := Covers(hwBufsFree, needs);
      if !enough {
        Difference(announced + numInpChBufs, sent);
        hwBufsFree := ToInt((hwXmits - nXmits) % 0x1_0000_0000);
        assert hwBufsFree <= numInpChBufs;
        enough := Covers(hwBufsFree, needs);
      }
    }

    /** atbm_xmit_linearize: the frame goes into the transfer buffer. */
    method Linearize(at: nat, data: Bytes)
      requires at + |data| <= xmitBuff.Length
      modifies xmitBuff
      ensures xmitBuff[at..at + |data|] == data
      ensures xmitBuff[..at] == old(xmitBuff[..at])
    {
      var i := 0;
      while i < |data|
        invariant i <= |data| && xmitBuff[at..at + i] == data[..i] && xmitBuff[..at] == old(xmitBuff[..at])
      {
        xmitBuff[at + i] := data[i];
        i := i + 1;
      }
    }

    /** One frame more is counted out of the credits. */
    method Count()
      requires Valid() && hwBufsFree > 0
      modifies this`nXmits, this`hwBufsFree, this`sent
      ensures Valid() && State() == old(State()).(sent := old(sent) + 1)
    {
      WrapCount(sent);
      nXmits := (nXmits + 1) % 0x1_0000_0000;
      hwBufsFree := hwBufsFree - 1;
      sent := sent + 1;
    }

    /** The loop of atbm_sdio_tx_bh for one frame, up to its sequence number. */
    method PutFrame(f: TxFrame)
      requires Valid() && HasHeader(f) && hwBufsFree > 0 && xmitBuffPut + Aligned(|f.data|) <= SDIO_TX_MAXLEN
      modifies this`nXmits, this`hwBufsFree, this`xmitBuffPut, this`wsmTxSeq, this`sent, xmitBuff
      ensures Valid() && State() == old(State()).(sent := old(sent) + 1)
      ensures xmitBuffPut == old(xmitBuffPut) + Aligned(|f.data|) <= SDIO_TX_MAXLEN
      ensures wsmTxSeq == (old(wsmTxSeq) + 1) % 8
      ensures xmitBuff[old(xmitBuffPut)..old(xmitBuffPut) + |f.data|] == Stamped(f.data, old(wsmTxSeq))
      ensures xmitBuff[..old(xmitBuffPut)] == old(xmitBuff[..xmitBuffPut])
    {
      var data := Stamped(f.data, wsmTxSeq);
      Count();
      Linearize(xmitBuffPut, data);
      xmitBuffPut := xmitBuffPut + Aligned(|f.data|);
      wsmTxSeq := (wsmTxSeq + 1) % 8;
    }

    /** The first `n` frames stand in the buffer, one behind the other, numbered from
        `first` on. */
    ghost predicate Packed(q: seq<TxFrame>, n: nat, first: nat)
      requires n <= |q| && first <= WSM_TX_SEQ_MAX
      reads xmitBuff
    {
      forall i :: 0 <= i < n ==> Placed(xmitBuff[..], q, i, first)
    }

    /** The transfer holds the first `n` frames; `start` is how it began. */
    ghost predicate Filling(q: seq<TxFrame>, n: nat, start: Link, first: nat)
      reads this, xmitBuff
    {
      && Valid() && n <= |q| && State() == start.(sent := start.sent + n)
      && first <= WSM_TX_SEQ_MAX && xmitBuffPut == Offset(q, n) && wsmTxSeq == SeqNo(first, n) && Packed(q, n, first)
    }

    method PutNext(q: seq<TxFrame>, n: nat, ghost start: Link, ghost first: nat)
      requires Filling(q, n, start, first) && n < |q| && HasHeader(q[n])
      requires hwBufsFree > 0 && Offset(q, n + 1) <= SDIO_TX_MAXLEN
      modifies this`nXmits, this`hwBufsFree, this`xmitBuffPut, this`wsmTxSeq, this`sent, xmitBuff
      ensures Filling(q, n + 1, start, first) && xmitBuffPut == old(xmitBuffPut) + Aligned(|q[n].data|) <= SDIO_TX_MAXLEN
    {
      ghost var before := xmitBuff[..];
      PutFrame(q[n]);
      forall i | 0 <= i < n ensures Placed(xmitBuff[..], q, i, first) {
        PlacedStays(before, xmitBuff[..], q, i, n, first);
      }
      SeqNext(first, n);
    }

    /** The loop body of atbm_sdio_tx_bh; `done` when the loop is left. */
    method FillStep(q: seq<TxFrame>, n: nat, ghost start: Link, ghost first: nat) returns (n': nat, enough: bool, done: bool)
      requires Filling(q, n, start, first)
      requires n < |q| && Credits(State()) > 0 ==> HasHeader(q[n]) && Offset(q, n + 1) <= SDIO_TX_MAXLEN
      modifies this`nXmits, this`hwBufsFree, this`xmitBuffPut, this`wsmTxSeq, this`sent, xmitBuff
      ensures Filling(q, n', start, first) && n <= n'
      ensures var t := Taken(q, n, Credits(old(State())), old(xmitBuffPut), sizeInpChBuf);
              if done then n' == n + t else n' == n + 1 && t == 1 + Taken(q, n', Credits(State()), xmitBuffPut, sizeInpChBuf)
      ensures done && n' == 0 ==> (enough <==> Credits(State()) > 0)
    {
      enough := HaveEnoughSpace(1);
      if !enough || n == |q| { return n, enough, true; }
      PutNext(q, n, start, first);
      n' := n + 1;
      done := q[n].isCommand || xmitBuffPut + sizeInpChBuf > SDIO_TX_MAXLEN;
    }

    /** The loop of atbm_sdio_tx_bh: it packs as many frames as it may. */
    method FillBuffer(q: seq<TxFrame>) returns (n: nat, enough: bool)
      requires Valid() && HasRoom(q, Credits(State()), sizeInpChBuf)
      modifies this`nXmits, this`hwBufsFree, this`xmitBuffPut, this`wsmTxSeq, this`sent, xmitBuff
      ensures n == Taken(q, 0, Credits(old(State())), 0, sizeInpChBuf)
      ensures IsTaken(q, 0, Credits(old(State())), sizeInpChBuf, n)
      ensures Filling(q, n, old(State()), old(wsmTxSeq)) && xmitBuffPut <= SDIO_TX_MAXLEN
      ensures n == 0 ==> (enough <==> Credits(old(State())) > 0)
    {
      xmitBuffPut, n, enough := 0, 0, false;
      ghost var start, first := State(), wsmTxSeq;
      ghost var total := Taken(q, 0, Credits(start), 0, sizeInpChBuf);
      var done := false;
      while !done
        invariant Filling(q, n, start, first)
        invariant if done then n == total else n + Taken(q, n, Credits(State()), xmitBuffPut, sizeInpChBuf) == total
        invariant done && n == 0 ==> (enough <==> Credits(State()) > 0)
        decreases !done, |q| - n
      {
        if n < total { OffsetsApart(q, n, total); }
        n, enough, done := FillStep(q, n, start, first);
      }
      TakenIff(q, 0, Credits(start), sizeInpChBuf, n);
    }

    method AdvanceIds()
      requires Valid() && written + bufIdOffset <= sent
      modifies this`bufIdTx, this`written
      ensures Valid() && State() == old(State()).(written := old(written) + bufIdOffset)
    {
      WrapIds(written, bufIdOffset);
      bufIdTx := (bufIdTx + bufIdOffset) % 64;
      written := written + bufIdOffset;
    }

    /** atbm_data_write_unlock: the transfer is tried up to MAX_RETRY times; the buffer
        numbers advance with the frames that got through. */
    method DataWrite(bus: nat -> bool) returns (ok: bool)
      requires Valid() && written + bufIdOffset <= sent
      modifies this`bufIdTx, this`written
      ensures Valid() && ok == Succeeds(bus, 1)
      ensures State() == old(State()).(written := old(written) + if ok then bufIdOffset else 0)
    {
      var retry := 1;
      ok := false;
      while retry <= MAX_RETRY
        invariant retry <= MAX_RETRY + 1 && Succeeds(bus, 1) == Succeeds(bus, retry)
        decreases MAX_RETRY + 1 - retry
      {
        if bus(retry) {
          AdvanceIds();
          return true;
        }
        retry := retry + 1;
      }
    }

    /** One round of atbm_sdio_tx_bh: as many frames as it may take go into the buffer and
        then to the device. */
    method TransmitRound(q: seq<TxFrame>, bus: nat -> bool) returns (n: nat)
      requires Valid() && IsLegal(State(), Transmit(q, bus))
      modifies this, xmitBuff
      ensures Valid() && State() == Step(old(State()), Transmit(q, bus)) && n == sent - old(sent)
      ensures n > 0 ==> xmitBuffPut == Offset(q, n) && Packed(q, n, old(wsmTxSeq))
    {
      var enough;
      n, enough := FillBuffer(q);
      if n > 0 {
        bufIdOffset := n;
        var _ := DataWrite(bus);
      }
    }

    /** One event. */
    method Handle(e: Event)
      requires Valid() && IsLegal(State(), e)
      modifies this, xmitBuff
      ensures Valid() && State() == Step(old(State()), e)
    {
      match e {
        case Consume(count) =>
          processed := processed + count;
        case Announce(upTo) =>
          InputChannelEvent((upTo + numInpChBufs) % 0x1_0000_0000, upTo);
        case Transmit(q, bus) =>
          var _ := TransmitRound(q, bus);
      }
    }

    /** Any run: the fields keep up with the protocol in unbounded counters. */
    method Run(events: seq<Event>, ghost t: Link)
      requires Valid() && Leads(State(), events, t)
      modifies this, xmitBuff
      ensures Valid() && State() == t
    {
      var i := 0;
      assert events[0..] == events;
      while i < |events|
        invariant i <= |events| && Valid() && Leads(State(), events[i..], t)
      {
        assert events[i..][0] == events[i] && events[i..][1..] == events[i + 1..];
        Handle(events[i]);
        i := i + 1;
      }
    }
  }

  function SeqNo(first: nat, n: nat): (r: nat)
    ensures r <= WSM_TX_SEQ_MAX
  {
    (first + n) % 8
  }

  lemma SeqNext(first: nat, n: nat)
    ensures (SeqNo(first, n) + 1) % 8 == SeqNo(first, n + 1)
  {}

  /** The `i`-th frame stands where it belongs, under the right number. */
  ghost predicate Placed(buf: Bytes, q: seq<TxFrame>, i: nat, first: nat)
    requires i < |q| && first <= WSM_TX_SEQ_MAX
  {
    var o, d := Offset(q, i), q[i].data;
    && WSM_HDR_TX <= |d| < 0x10000 && o + |d| <= |buf|
    && buf[o..o + |d|] == Stamped(d, SeqNo(first, i))
  }

  lemma SliceStays(a: Bytes, b: Bytes, k: nat, o: nat, l: nat)
    requires |a| == |b| && o + l <= k <= |a| && a[..k] == b[..k]
    ensures a[o..o + l] == b[o..o + l]
  {
    assert a[o..o + l] == a[..k][o..o + l];
    assert b[o..o + l] == b[..k][o..o + l];
  }

  /** A frame further back does not touch this one. */
  lemma PlacedStays(a: Bytes, b: Bytes, q: seq<TxFrame>, i: nat, n: nat, first: nat)
    requires i < n < |q| && first <= WSM_TX_SEQ_MAX && |a| == |b| && Offset(q, n) <= |b|
    requires Placed(a, q, i, first) && a[..Offset(q, n)] == b[..Offset(q, n)]
    ensures Placed(b, q, i, first)
  {
    OffsetsApart(q, i, n);
    SliceStays(a, b, Offset(q, n), Offset(q, i), |q[i].data|);
  }
}
