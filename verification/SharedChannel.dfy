/**
  The shared memory channel as the object two processes update in place: two
  rings of cell numbers, the message cells, and the round-robin cursor.
 */
module SharedMemory {
  import opened Words
  import opened RingSpec
  import opened LlringObject
  import opened Channel

  class SharedChannel {
    const rings: seq<Llring<nat>>
    const countElements: nat
    const objs: array<Msg>
    var ringTop: nat

    ghost predicate Apart() {
      |rings| == 2 && rings[0] != rings[1] && rings[0].ring != rings[1].ring
    }

    ghost predicate Valid()
      reads this, objs, set i | 0 <= i < |rings| :: rings[i], set i | 0 <= i < |rings| :: rings[i].ring
    {
      Apart() && RingsValid() && countElements == objs.Length && Wf(Model())
    }

    ghost predicate RingsValid()
      reads this, set i | 0 <= i < |rings| :: rings[i]
      requires |rings| == 2
    {
      && rings[0].Valid() && rings[1].Valid()
      && rings[0].slots == rings[1].slots == rings[0].watermark == rings[1].watermark
    }

    /** The channel as a value. */
    ghost function Model(): Chan
      reads this, objs, set i | 0 <= i < |rings| :: rings[i], set i | 0 <= i < |rings| :: rings[i].ring
      requires |rings| == 2 && RingsValid()
    {
      Chan(rings[0].slots, ringTop, objs[..], [rings[0].Contents(), rings[1].Contents()])
    }

    /** The rings and the cells of a new channel, over any memory contents. */
    constructor (r0: Llring<nat>, r1: Llring<nat>, memory: array<Msg>)
      requires r0.slots > 0 ==> r0.Valid() && r1.Valid() && r0.Contents() == [] == r1.Contents()
      requires r0 != r1 && r0.ring != r1.ring
      requires r0.slots == r1.slots == r0.watermark == r1.watermark && memory.Length == Pool(r0.slots)
      requires forall c :: 0 <= c < memory.Length ==> |memory[c].data| == MAX_SHARED_OBJ_SIZE
      modifies memory
      ensures rings == [r0, r1] && objs == memory && countElements == memory.Length && ringTop == 0
      ensures r0.slots > 0 ==> Valid() && CleanSlate(r0.slots, old(DataOf(memory[..])))
                               && Model() == Fresh(r0.slots, old(DataOf(memory[..]))).ch
    {
      rings, countElements, objs, ringTop := [r0, r1], 2 * r0.slots, memory, 0;
      new;
      ghost var was := DataOf(memory[..]);
      for i := 0 to memory.Length
        invariant ringTop == 0
        invariant forall c :: 0 <= c < i ==> memory[c] == Msg(old(memory[c].data), 0, false)
        invariant forall c :: i <= c < memory.Length ==> memory[c] == old(memory[c])
      {
        memory[i] := memory[i].(size := 0);
        memory[i] := memory[i].(valid := false);
      }
      if r0.slots > 0 {
        assert CleanSlate(r0.slots, was);
        assert objs[..] == Fresh(r0.slots, was).ch.cells;
        assert Model().queues == [[], []];
      }
    }

    /**
      The creating branch of connect_shared_channel, from ring initialisation
      on: it fails exactly when the slot count is neither a power of two nor
      zero.  The object count 2 * slots is an int there, so it has to fit one.
     */
    static method Connect(slots: nat, memory: array<Msg>) returns (ret: int, ch: SharedChannel?)
      requires 2 * slots < TWO31 && memory.Length == Pool(slots)
      requires forall c :: 0 <= c < memory.Length ==> |memory[c].data| == MAX_SHARED_OBJ_SIZE
      modifies memory
      ensures ret == 0 <==> IsPow2(slots) || slots == 0
      ensures ret == 0 ==> ch != null && ch.countElements == 2 * slots
      ensures ret == 0 && slots > 0 ==> ch.Valid() && CleanSlate(slots, old(DataOf(memory[..])))
                                        && ch.Model() == Fresh(slots, old(DataOf(memory[..]))).ch
      ensures ret != 0 ==> ret == -1 && ch == null
    {
      var r0, r1;
      ret, r0 := Llring.Init(slots, false, false, 0);
      if ret != 0 {
        return -1, null;
      }
      ret, r1 := Llring.Init(slots, false, false, 0);
      if ret != 0 {
        return -1, null;
      }
      ch := new SharedChannel(r0, r1, memory);
    }

    /** vc_tx_msg of process `procId`: see Channel.Tx. */
    method TxMsg(procId: nat, buf: array<byte>, size: nat) returns (ret: int)
      requires Valid() && procId < 2 && size <= buf.Length && size < MAX_SHARED_OBJ_SIZE
      modifies this`ringTop, objs, rings[1 - procId], rings[1 - procId].ring
      ensures Valid()
      ensures Model() == Tx(old(Model()), 1 - procId, buf[..size]).0
      ensures ret == if Tx(old(Model()), 1 - procId, buf[..size]).1 then 0 else -1
    {
      var other := 1 - procId;
      var index := ringTop;
      ringTop := (index + 1) % countElements;
      // an overridden message is only reported
      CopyIn(index, buf, size);
      ret := Post(other, index);
    }

    /** The single-entry burst of vc_tx_msg, with the quota flag masked off. */
    method Post(other: nat, index: nat) returns (ret: int)
      requires Valid() && other < 2 && index < objs.Length
      modifies rings[other], rings[other].ring
      ensures Valid()
      ensures var q := old(Model()).queues[other];
              var room := |q| < rings[0].slots - 1;
              && Model() == old(Model()).(queues := old(Model()).queues[other := if room then q + [index] else q])
              && ret == if room then 0 else -1
    {
      ghost var m := Model();
      Rejoined(m, other, index);
      ret := PutOne(rings[other], index);
      assert Model() == if ret == 0 then Joined(m, other, index) else m;
    }

    method CopyIn(index: nat, buf: array<byte>, size: nat)
      requires index < objs.Length && size <= buf.Length && size <= |objs[index].data|
      modifies objs
      ensures objs[..] == old(objs[..])[index := Overwrite(old(objs[index]), buf[..size])]
    {
      objs[index] := objs[index].(data := buf[..size] + objs[index].data[size..]);
      objs[index] := objs[index].(size := size);
      objs[index] := objs[index].(valid := true);
    }

    /** vc_rx_msg of process `procId`: see Channel.Rx. */
    method RxMsg(procId: nat, buf: array<byte>, size: nat) returns (ret: nat)
      requires Valid() && procId < 2 && size <= buf.Length
      modifies objs, rings[procId], buf
      ensures Valid()
      ensures Model() == Rx(old(Model()), procId, size).0
      ensures var out := Rx(old(Model()), procId, size).1;
              ret == |out| <= buf.Length && buf[..] == out + old(buf[..])[ret..]
    {
      var some, index := Next(procId);
      if !some {
        return 0;
      }
      if !objs[index].valid {
        return 0;
      }
      ret := CopyOut(index, buf, size);
      Clear(index);
    }

    /** The single-entry burst of vc_rx_msg. */
    method Next(procId: nat) returns (some: bool, index: nat)
      requires Valid() && procId < 2
      modifies rings[procId]
      ensures Valid()
      ensures var q := old(Model()).queues[procId];
              && some == (q != [])
              && (some ==> index == q[0])
              && Model() == if some then TakeOff(old(Model()), procId) else old(Model())
    {
      ghost var m := Model();
      Rejoined(m, procId, 0);
      some, index := TakeOne(rings[procId]);
      assert Model() == if some then TakeOff(m, procId) else m;
    }

    method Clear(index: nat)
      requires Valid() && index < objs.Length
      modifies objs
      ensures Valid()
      ensures Model() == Wipe(old(Model()), index)
    {
      objs[index] := objs[index].(valid := false);
      objs[index] := objs[index].(size := 0);
    }

    method CopyOut(index: nat, buf: array<byte>, size: nat) returns (len: nat)
      requires index < objs.Length && size <= buf.Length && objs[index].size <= |objs[index].data|
      modifies buf
      ensures len == Min(objs[index].size, size)
      ensures buf[..] == objs[index].data[..len] + old(buf[..])[len..]
    {
      len := if objs[index].size < size then objs[index].size else size;
      ghost var was := buf[..];
      for i := 0 to len
        invariant forall k :: 0 <= k < i ==> buf[k] == objs[index].data[k]
        invariant forall k :: i <= k < buf.Length ==> buf[k] == was[k]
      {
        buf[i] := objs[index].data[i];
      }
    }

    /** vc_count_msg: the messages waiting for this process. */
    method CountMsg(procId: nat) returns (n: nat)
      requires Valid() && procId < 2
      ensures n == |Model().queues[procId]|
    {
      n := rings[procId].Count();
    }
  }

  ghost function Joined(m: Chan, d: nat, index: nat): Chan
    requires |m.queues| == 2 && d < 2
  {
    m.(queues := m.queues[d := m.queues[d] + [index]])
  }

  lemma Rejoined(m: Chan, d: nat, index: nat)
    requires Wf(m) && d < 2 && index < |m.cells|
    ensures |m.queues[d]| < m.slots - 1 ==> Wf(Joined(m, d, index))
    ensures m.queues[d := m.queues[d]] == m.queues
  {
  }

  method PutOne(r: Llring<nat>, index: nat) returns (ret: int)
    requires r.Valid() && r.watermark == r.slots
    modifies r`prodHead, r`prodTail, r.ring
    ensures r.Valid()
    ensures var q, room := old(r.Contents()), |old(r.Contents())| < r.slots - 1;
            r.Contents() == (if room then q + [index] else q) && ret == if room then 0 else -1
  {
    ret := r.SpDoEnqueue([index], 1, Variable);
    assert 0 <= ret <= 1;
    Bit31Off(ret);
    ret := And(Wrap(ret), 0x7fffffff);
    ret := if ret < 1 then -1 else 0;
  }

  method TakeOne(r: Llring<nat>) returns (some: bool, index: nat)
    requires r.Valid()
    modifies r`consHead, r`consTail
    ensures r.Valid()
    ensures var q := old(r.Contents());
            && some == (q != []) && (some ==> index == q[0])
            && r.Contents() == if q == [] then q else q[1..]
  {
    var tab := new nat[1](_ => 0);
    var got := r.ScDoDequeue(tab, 1, Variable);
    some, index := got >= 1, tab[0];
  }

  lemma Bit31Off(ret: nat)
    requires ret <= 1
    ensures And(Wrap(ret), 0x7fffffff) == ret
  {
    Pow2Of32();
    assert Pow2(31) == TWO31;
    AndMask(Wrap(ret), 31);
  }

  ghost function DataOf(cells: seq<Msg>): seq<seq<byte>> {
    seq(|cells|, c requires 0 <= c < |cells| => cells[c].data)
  }
}
