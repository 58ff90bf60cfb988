/** ieee80211_atbm_amsdu_to_8023s: taking an A-MSDU apart, byte by byte in the socket
    buffer (ieee80211_atbm_skb.c). */
module Amsdu {
  import opened AmsduFormat
  import opened Octets

  datatype Outcome = Delivered(frames: seq<Bytes>) | Dropped

  /** What the environment decides: whether the n-th buffer can be allocated, and what
      lies behind the n-th frame. */
  datatype World = World(alloc: nat -> bool, stale: nat -> Bytes)

  ghost predicate IsWorld(w: World) { forall i :: |w.stale(i)| >= 8 }

  function LengthField(data: Bytes): (len: nat)
    requires |data| >= ETH_HLEN
    ensures len < 0x10000
  {
    FromBe16(data[12..14])
  }

  function Frame(data: Bytes, payload: Bytes, stale: Bytes): Bytes
    requires |data| >= ETH_HLEN && |stale| >= 8
  {
    Convert(data[..6], data[6..12], LengthField(data), payload, stale)
  }

  function Prepend(f: Bytes, o: Outcome): Outcome {
    if o.Delivered? then Delivered([f] + o.frames) else Dropped
  }

  /** What becomes of the bytes left when the `i`-th subframe is next. */
  ghost function Split(data: Bytes, i: nat, w: World): Outcome
    requires IsWorld(w)
    decreases |data|
  {
    if |data| < ETH_HLEN || ETH_HLEN + LengthField(data) > |data| then Dropped
    else
      var len := LengthField(data);
      var sub := ETH_HLEN + len;
      if |data| <= sub + Padding(sub) then Delivered([Frame(data, data[ETH_HLEN..], w.stale(i))])
      else if !w.alloc(i) then Dropped
      else Prepend(Frame(data, data[ETH_HLEN..sub], w.stale(i)), Split(data[sub + Padding(sub)..], i + 1, w))
  }

  /** The frames made of a list of MSDUs, the last of which has `tail` behind it. */
  ghost function Frames(ms: seq<Msdu>, tail: Bytes, i: nat, w: World): seq<Bytes>
    requires ms != [] && AreMsdus(ms) && IsWorld(w)
  {
    var m := ms[0];
    if |ms| == 1 then [Convert(m.dst, m.src, |m.payload|, m.payload + tail, w.stale(i))]
    else [Convert(m.dst, m.src, |m.payload|, m.payload, w.stale(i))] + Frames(ms[1..], tail, i + 1, w)
  }

  /** At most the padding that the last subframe does not need. */
  predicate IsTail(ms: seq<Msdu>, tail: Bytes)
    requires ms != []
  {
    |tail| <= Padding(ETH_HLEN + |ms[|ms| - 1].payload|)
  }

  /** Where a subframe stands in front of other bytes. */
  lemma SubframeFirst(m: Msdu, more: Bytes)
    requires IsMsdu(m)
    ensures var data := Subframe(m) + more; var sub := ETH_HLEN + |m.payload|;
      && |Subframe(m)| == sub && |data| >= sub && LengthField(data) == |m.payload|
      && data[..6] == m.dst && data[6..12] == m.src
      && data[ETH_HLEN..sub] == m.payload && data[ETH_HLEN..] == m.payload + more && data[sub..] == more
  {
    var data, sub := Subframe(m) + more, ETH_HLEN + |m.payload|;
    assert data[..6] == m.dst;
    assert data[6..12] == m.src;
    assert data[12..14] == Be16(|m.payload|);
    assert data[ETH_HLEN..] == m.payload + more;
  }

  /** A padded subframe with more behind it. */
  lemma SplitStep(m: Msdu, rest: Bytes, i: nat, w: World)
    requires IsMsdu(m) && rest != [] && IsWorld(w)
    ensures Split(Subframe(m) + m.pad + rest, i, w)
         == if w.alloc(i) then Prepend(Convert(m.dst, m.src, |m.payload|, m.payload, w.stale(i)), Split(rest, i + 1, w))
            else Dropped
  {
    var data, sub := Subframe(m) + m.pad + rest, ETH_HLEN + |m.payload|;
    SubframeFirst(m, m.pad + rest);
    assert data == Subframe(m) + (m.pad + rest);
    assert data[sub..][|m.pad|..] == data[sub + Padding(sub)..] == rest;
  }

  lemma SplitLast(m: Msdu, tail: Bytes, i: nat, w: World)
    requires IsMsdu(m) && |tail| <= Padding(ETH_HLEN + |m.payload|) && IsWorld(w)
    ensures Split(Subframe(m) + tail, i, w)
         == Delivered([Convert(m.dst, m.src, |m.payload|, m.payload + tail, w.stale(i))])
  {
    SubframeFirst(m, tail);
  }

  /** Splitting inverts aggregation: one frame for each subframe, in order. */
  lemma {:induction false} SplitAggregate(ms: seq<Msdu>, tail: Bytes, i: nat, w: World)
    requires ms != [] && AreMsdus(ms) && IsTail(ms, tail) && IsWorld(w)
    requires forall j :: i <= j < i + |ms| - 1 ==> w.alloc(j)
    ensures Split(Aggregate(ms, tail), i, w) == Delivered(Frames(ms, tail, i, w))
    decreases |ms|
  {
    if |ms| == 1 {
      SplitLast(ms[0], tail, i, w);
    } else {
      var rest := ms[1..];
      assert AreMsdus(rest) && IsTail(rest, tail) && w.alloc(i);
      AggregateIsLong(rest, tail);
      SplitStep(ms[0], Aggregate(rest, tail), i, w);
      SplitAggregate(rest, tail, i + 1, w);
    }
  }

  lemma AggregateIsLong(ms: seq<Msdu>, tail: Bytes)
    requires ms != [] && AreMsdus(ms)
    ensures |Aggregate(ms, tail)| >= ETH_HLEN
  {
    SubframeFirst(ms[0], []);
  }

  /** The first subframe of some bytes, with `pad` behind it. */
  function First(data: Bytes, pad: Bytes): (m: Msdu)
    requires |data| >= ETH_HLEN && ETH_HLEN + LengthField(data) <= |data|
    requires |pad| == Padding(ETH_HLEN + LengthField(data))
    ensures IsMsdu(m) && m.pad == pad && Subframe(m) == data[..ETH_HLEN + LengthField(data)]
  {
    var len := LengthField(data);
    assert data[12..14] == Be16(len);
    assert data[..ETH_HLEN + len] == data[..6] + data[6..12] + data[12..14] + data[ETH_HLEN..ETH_HLEN + len];
    Msdu(data[..6], data[6..12], data[ETH_HLEN..ETH_HLEN + len], pad)
  }

  /** The subframes that a delivered aggregate consists of. */
  ghost function Subframes(data: Bytes): (r: (seq<Msdu>, Bytes))
    decreases |data|
  {
    if |data| < ETH_HLEN || ETH_HLEN + LengthField(data) > |data| then ([], data)
    else
      var sub := ETH_HLEN + LengthField(data);
      var p := Padding(sub);
      if |data| <= sub + p then ([First(data, seq(p, _ => 0))], data[sub..])
      else
        var next := Subframes(data[sub + p..]);
        ([First(data, data[sub..sub + p])] + next.0, next.1)
  }

  lemma LastIsSplit(data: Bytes, m: Msdu, tail: Bytes)
    requires IsMsdu(m) && data == Subframe(m) + tail && |tail| <= Padding(ETH_HLEN + |m.payload|)
    ensures IsSplitOf(data, [m], tail)
  {}

  lemma ConsIsSplit(data: Bytes, m: Msdu, rest: Bytes, ms: seq<Msdu>, tail: Bytes)
    requires IsMsdu(m) && IsSplitOf(rest, ms, tail) && data == Subframe(m) + m.pad + rest
    ensures IsSplitOf(data, [m] + ms, tail)
  {
    assert ([m] + ms)[1..] == ms;
  }

  /** Nothing but aggregates is delivered: whatever is, was made of these subframes, */
  lemma {:induction false} DeliveredIsAggregate(data: Bytes, i: nat, w: World)
    requires IsWorld(w) && Split(data, i, w).Delivered?
    ensures IsSplitOf(data, Subframes(data).0, Subframes(data).1)
    decreases |data|
  {
    var sub := ETH_HLEN + LengthField(data);
    var p := Padding(sub);
    if |data| <= sub + p {
      assert data == data[..sub] + data[sub..];
      LastIsSplit(data, First(data, seq(p, _ => 0)), data[sub..]);
    } else {
      var pad, rest := data[sub..sub + p], data[sub + p..];
      DeliveredIsAggregate(rest, i + 1, w);
      FirstThenRest(data, Subframes(rest).0, Subframes(rest).1);
    }
  }

  lemma FirstThenRest(data: Bytes, ms: seq<Msdu>, tail: Bytes)
    requires |data| >= ETH_HLEN && ETH_HLEN + LengthField(data) + Padding(ETH_HLEN + LengthField(data)) < |data|
    requires var at := ETH_HLEN + LengthField(data) + Padding(ETH_HLEN + LengthField(data)); IsSplitOf(data[at..], ms, tail)
    ensures var sub := ETH_HLEN + LengthField(data);
            IsSplitOf(data, [First(data, data[sub..sub + Padding(sub)])] + ms, tail)
  {
    var sub := ETH_HLEN + LengthField(data);
    var p := Padding(sub);
    var pad, rest := data[sub..sub + p], data[sub + p..];
    assert data == data[..sub] + pad + rest;
    ConsIsSplit(data, First(data, pad), rest, ms, tail);
  }

  /** and all the buffers needed were there. */
  lemma {:induction false} DeliveredNeeds(data: Bytes, i: nat, w: World, j: nat)
    requires IsWorld(w) && Split(data, i, w).Delivered? && i <= j < i + |Subframes(data).0| - 1
    ensures w.alloc(j)
    decreases |data|
  {
    var sub := ETH_HLEN + LengthField(data);
    if |data| > sub + Padding(sub) && j > i { DeliveredNeeds(data[sub + Padding(sub)..], i + 1, w, j); }
  }

  /** Exactly what is delivered: aggregates whose subframes fit, as far as buffers can be
      allocated. Anything else, such as a length that overruns, delivers nothing. */
  lemma DeliveredIff(data: Bytes, i: nat, w: World)
    requires IsWorld(w)
    ensures Split(data, i, w).Delivered? <==>
      exists ms, tail :: IsSplitOf(data, ms, tail) && forall j :: i <= j < i + |ms| - 1 ==> w.alloc(j)
  {
    if Split(data, i, w).Delivered? {
      DeliveredIsAggregate(data, i, w);
      var (ms, tail) := Subframes(data);
      forall j | i <= j < i + |ms| - 1 ensures w.alloc(j) { DeliveredNeeds(data, i, w, j); }
      assert IsSplitOf(data, ms, tail);
    }
    if ms, tail :| IsSplitOf(data, ms, tail) && forall j :: i <= j < i + |ms| - 1 ==> w.alloc(j) {
      SplitAggregate(ms, tail, i, w);
    }
  }

  ghost predicate IsSplitOf(data: Bytes, ms: seq<Msdu>, tail: Bytes) {
    ms != [] && AreMsdus(ms) && IsTail(ms, tail) && Aggregate(ms, tail) == data
  }

  /** An Ethernet frame whose type field is an EtherType. */
  type TypedFrame = f: Ethernet | ETH_P_802_3_MIN <= f.proto < 0x10000 && |f.body| < 0xfff8
    witness Ethernet([0, 0, 0, 0, 0, 0], [0, 0, 0, 0, 0, 0], ETH_P_802_3_MIN, [])

  /** How the sending side packs Ethernet frames. */
  function Pack(fs: seq<TypedFrame>): (ms: seq<Msdu>)
    ensures AreMsdus(ms) && |ms| == |fs|
  {
    if fs == [] then []
    else
      var p := Encapsulate(fs[0]);
      [Msdu(fs[0].dst, fs[0].src, p, seq(Padding(ETH_HLEN + |p|), _ => 0))] + Pack(fs[1..])
  }

  function EthernetFrames(fs: seq<TypedFrame>): seq<Bytes> {
    if fs == [] then [] else [EthernetBytes(fs[0])] + EthernetFrames(fs[1..])
  }

  /** Ethernet frames that are encapsulated, aggregated and split again come out as they
      went in, all of them, in order. */
  lemma {:induction false} FramesOfPacked(fs: seq<TypedFrame>, i: nat, w: World)
    requires fs != [] && IsWorld(w)
    ensures Frames(Pack(fs), [], i, w) == EthernetFrames(fs)
    decreases |fs|
  {
    var m := Pack(fs)[0];
    ConvertEncapsulated(fs[0], w.stale(i));
    assert m.payload + [] == m.payload;
    if |fs| > 1 {
      FramesOfPacked(fs[1..], i + 1, w);
      assert Pack(fs)[1..] == Pack(fs[1..]);
    } else {
      assert EthernetFrames(fs[1..]) == [];
    }
  }

  lemma AggregateRoundTrip(fs: seq<TypedFrame>, w: World)
    requires fs != [] && IsWorld(w) && forall j :: 0 <= j < |fs| - 1 ==> w.alloc(j)
    ensures Split(Aggregate(Pack(fs), []), 0, w) == Delivered(EthernetFrames(fs))
  {
    SplitAggregate(Pack(fs), [], 0, w);
    FramesOfPacked(fs, 0, w);
  }

  /** A socket buffer: the bytes between `data` and `tail`. */
  class Skb {
    var data: Bytes

    constructor (data: Bytes)
      ensures this.data == data
    {
      this.data := data;
    }

    /** skb_pull: no more than there is. */
    method Pull(n: nat) returns (ok: bool)
      modifies this
      ensures ok == (n <= |old(data)|) && data == if ok then old(data)[n..] else old(data)
    {
      ok := n <= |data|;
      if ok { data := data[n..]; }
    }

    /** skb_push, and the bytes written there. */
    method Push(bytes: Bytes)
      modifies this
      ensures data == bytes + old(data)
    {
      data := bytes + data;
    }
  }

  /** The second half of the loop: the header of an Ethernet frame. */
  method MakeFrame(frame: Skb, dst: Address, src: Address, len: nat, stale: Bytes)
    requires len < 0x10000 && |stale| >= 8
    modifies frame
    ensures frame.data == Convert(dst, src, len, old(frame.data), stale)
  {
    ghost var payload := frame.data;
    if IsEncapsulated((frame.data + stale)[..8]) {
      var _ := frame.Pull(6);
    } else {
      frame.Push(Be16(len));
    }
    ghost var rest := frame.data;
    frame.Push(src);
    frame.Push(dst);
    assert frame.data == dst + src + rest;
    assert dst + src + Be16(len) + payload == dst + src + (Be16(len) + payload);
  }

  ghost predicate Holds(list: seq<Skb>, frames: seq<Bytes>)
    reads list
  {
    && |list| == |frames|
    && (forall i :: 0 <= i < |list| ==> list[i].data == frames[i])
    && (forall i, j :: 0 <= i < j < |list| ==> list[i] != list[j])
  }

  lemma HoldsOneMore(list: seq<Skb>, frames: seq<Bytes>, frame: Skb)
    requires Holds(list, frames) && frame !in list
    ensures Holds(list + [frame], frames + [frame.data])
  {}

  function Before(done: seq<Bytes>, o: Outcome): Outcome {
    if o.Delivered? then Delivered(done + o.frames) else Dropped
  }

  lemma BeforePrepend(done: seq<Bytes>, f: Bytes, o: Outcome)
    ensures Before(done, Prepend(f, o)) == Before(done + [f], o)
    ensures Before(done, Delivered([f])) == Delivered(done + [f])
  {
    if o.Delivered? { assert done + ([f] + o.frames) == done + [f] + o.frames; }
  }

  /** The loop body: the next frame, unless all is to be dropped. Fewer bytes than a
      header never make a subframe, whatever lies behind them. */
  method TakeSubframe(skb: Skb, i: nat, alloc: nat -> bool, stale: nat -> Bytes, ghost w: World)
    returns (ok: bool, frame: Skb, last: bool)
    requires w == World(alloc, stale) && IsWorld(w)
    modifies skb
    ensures !ok ==> Split(old(skb.data), i, w) == Dropped
    ensures ok && last ==> frame == skb && Split(old(skb.data), i, w) == Delivered([frame.data])
    ensures ok && !last ==> frame != skb && fresh(frame) && |skb.data| < |old(skb.data)|
    ensures ok && !last ==> Split(old(skb.data), i, w) == Prepend(frame.data, Split(skb.data, i + 1, w))
  {
    frame, last := skb, false;
    if |skb.data| < ETH_HLEN { return false, skb, false; }
    ghost var data := skb.data;
    var dst, src, len := skb.data[..6], skb.data[6..12], LengthField(skb.data);
    var sub, remaining := ETH_HLEN + len, |skb.data|;
    var padding := Padding(sub);
    if sub > remaining { return false, skb, false; }
    ok := skb.Pull(ETH_HLEN);
    if remaining <= sub + padding {
      last := true;
    } else {
      if !alloc(i) { return false, skb, false; }
      frame := new Skb(skb.data[..len]);
      ok := skb.Pull(len + padding);
      assert skb.data == data[sub + padding..] && frame.data == data[ETH_HLEN..sub];
    }
    MakeFrame(frame, dst, src, len, stale(i));
  }

  /** ieee80211_atbm_amsdu_to_8023s, from the first subframe header on. */
  method AmsduTo8023s(skb: Skb, alloc: nat -> bool, stale: nat -> Bytes) returns (list: seq<Skb>)
    requires IsWorld(World(alloc, stale))
    modifies skb
    ensures match Split(old(skb.data), 0, World(alloc, stale))
            case Delivered(frames) => Holds(list, frames) && forall s :: s in list ==> s == skb || fresh(s)
            case Dropped => list == []
  {
    ghost var w, done: seq<Bytes> := World(alloc, stale), [];
    var last, i := false, 0;
    list := [];
    while !last
      invariant Holds(list, done) && forall s :: s in list ==> (last && s == skb) || (s != skb && fresh(s))
      invariant Before(done, if last then Delivered([]) else Split(skb.data, i, w)) == Split(old(skb.data), 0, w)
      decreases !last, |skb.data|
    {
      var ok, frame;
      assert skb !in list;
      label before:
      ok, frame, last := TakeSubframe(skb, i, alloc, stale, w);
      if !ok { return []; }
      forall k | 0 <= k < |list| ensures list[k].data == done[k] && list[k] != frame {
        assert list[k] in list && old@before(list[k].data) == done[k];
      }
      HoldsOneMore(list, done, frame);
      BeforePrepend(done, frame.data, if last then Delivered([]) else Split(skb.data, i + 1, w));
      list, done := list + [frame], done + [frame.data];
      i := i + 1;
    }
    assert done + [] == done;
  }
}
