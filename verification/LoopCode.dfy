/** The instruction sequences of rtx_core_cm.h as loops over one memory cell.

    `env` says what other agents do between LDREX and the end of each attempt: nothing, something that
    drops the monitor, or a store.  After its end nobody interferes any more.  Each loop is shown to
    compute what the read-modify-write of `AtomicOps` prescribes, attempt by attempt. */
module LoopCode {
  import opened Bits
  import opened RetryLoops
  import opened AtomicOps

  datatype Disturbance<V> = Nothing | TagLost | Stored(v: V)

  /** A word of memory and the executing agent's monitor. */
  class Memory<V> {
    var word: V
    var tagged: bool

    constructor (v: V)
      ensures word == v && !tagged
    {
      word, tagged := v, false;
    }

    method LoadExclusive() returns (v: V)
      modifies this`tagged
      ensures v == word && tagged
    {
      v, tagged := word, true;
    }

    /** Returns 0 on success, 1 if the tag is gone. */
    method StoreExclusive(v: V) returns (res: nat)
      modifies this
      ensures res == (if old(tagged) then 0 else 1) && !tagged
      ensures word == if old(tagged) then v else old(word)
    {
      res := if tagged then 0 else 1;
      if tagged {
        word := v;
      }
      tagged := false;
    }

    method ClearExclusive()
      modifies this`tagged
      ensures !tagged
    {
      tagged := false;
    }

    /** Another agent's turn. */
    method Disturb(d: Disturbance<V>)
      modifies this
      ensures word == (if d.Stored? then d.v else old(word)) && tagged == (d.Nothing? && old(tagged))
    {
      match d
      case Nothing =>
      case TagLost => tagged := false;
      case Stored(v) => word, tagged := v, false;
    }
  }

  function Turn<V>(env: seq<Disturbance<V>>, i: nat): Disturbance<V> {
    if i < |env| then env[i] else Nothing
  }

  function Disturbed<V>(w: V, d: Disturbance<V>): V {
    if d.Stored? then d.v else w
  }

  /** The returned value and the final word, when the loop starts on w and `env` interferes. */
  ghost function Attempts<V>(op: Rmw<V>, w: V, env: seq<Disturbance<V>>): (V, V)
    decreases |env|
  {
    var d := Turn(env, 0);
    if op.exits(w) then (op.exitResult(w), Disturbed(w, d))
    else if d.Nothing? then (op.result(w), op.next(w))
    else Attempts(op, Disturbed(w, d), env[1..])
  }

  ghost function WordAfter<V>(w: V, env: seq<Disturbance<V>>): V {
    if env == [] then w else Disturbed(WordAfter(w, env[..|env|-1]), env[|env|-1])
  }

  lemma {:induction false} FirstTurn<V>(w: V, env: seq<Disturbance<V>>)
    requires env != []
    ensures WordAfter(w, env) == WordAfter(Disturbed(w, env[0]), env[1..])
  {
    if |env| > 1 {
      FirstTurn(w, env[..|env|-1]);
      assert env[..|env|-1][1..] == env[1..][..|env[1..]|-1];
    }
  }

  /** Whatever interferes, the loop acts in one indivisible step, on a word the cell really held: it
      returns what the operation returns there, and a store leaves what the operation leaves there. */
  lemma {:induction false} ActsAtomically<V>(op: Rmw<V>, w: V, env: seq<Disturbance<V>>) returns (n: nat)
    ensures n <= |env|
    ensures var v := WordAfter(w, env[..n]);
            && Attempts(op, w, env).0 == AtomicWord().reply(op, v)
            && (!op.exits(v) ==> Attempts(op, w, env).1 == AtomicWord().leaves(op, v))
    decreases |env|
  {
    var d := Turn(env, 0);
    if op.exits(w) || d.Nothing? {
      n := 0;
      assert env[..0] == [];
    } else {
      n := ActsAtomically(op, Disturbed(w, d), env[1..]);
      n := n + 1;
      FirstTurn(w, env[..n]);
      assert env[..n][1..] == env[1..][..n-1];
    }
  }

  /** atomic_set32 */
  method AtomicSet32(mem: Memory<Word>, bits: Word, env: seq<Disturbance<Word>>) returns (ret: Word)
    modifies mem
    ensures (ret, mem.word) == Attempts(SetBits(bits), old(mem.word), env) && !mem.tagged
    ensures env == [] ==> ret == mem.word == old(mem.word) + bits
  {
    var i := 0;
    while true
      invariant i <= |env|
      invariant Attempts(SetBits(bits), mem.word, env[i..]) == Attempts(SetBits(bits), old(mem.word), env)
      decreases |env| - i
    {
      assert Turn(env, i) == Turn(env[i..], 0) && (i < |env| ==> env[i..][1..] == env[i+1..]);
      var val := mem.LoadExclusive();
      ret := val + bits;
      mem.Disturb(Turn(env, i));
      var res := mem.StoreExclusive(ret);
      if res == 0 {
        break;
      }
      i := i + 1;
    }
  }

  /** atomic_clr32 */
  method AtomicClr32(mem: Memory<Word>, bits: Word, env: seq<Disturbance<Word>>) returns (ret: Word)
    modifies mem
    ensures (ret, mem.word) == Attempts(ClearBits(bits), old(mem.word), env) && !mem.tagged
    ensures env == [] ==> ret == old(mem.word) && mem.word == old(mem.word) - bits
  {
    var i := 0;
    while true
      invariant i <= |env|
      invariant Attempts(ClearBits(bits), mem.word, env[i..]) == Attempts(ClearBits(bits), old(mem.word), env)
      decreases |env| - i
    {
      assert Turn(env, i) == Turn(env[i..], 0) && (i < |env| ==> env[i..][1..] == env[i+1..]);
      ret := mem.LoadExclusive();
      var val := ret - bits;
      mem.Disturb(Turn(env, i));
      var res := mem.StoreExclusive(val);
      if res == 0 {
        break;
      }
      i := i + 1;
    }
  }

  /** atomic_chk32_all */
  method AtomicChk32All(mem: Memory<Word>, bits: Word, env: seq<Disturbance<Word>>) returns (ret: Word)
    modifies mem
    ensures (ret, mem.word) == Attempts(CheckAll(bits), old(mem.word), env) && !mem.tagged
    ensures env == [] ==>
              if bits <= old(mem.word) then ret == old(mem.word) && mem.word == old(mem.word) - bits
              else ret == {} && mem.word == old(mem.word)
  {
    var i := 0;
    while true
      invariant i <= |env|
      invariant Attempts(CheckAll(bits), mem.word, env[i..]) == Attempts(CheckAll(bits), old(mem.word), env)
      decreases |env| - i
    {
      assert Turn(env, i) == Turn(env[i..], 0) && (i < |env| ==> env[i..][1..] == env[i+1..]);
      ret := mem.LoadExclusive();
      var val := ret * bits;
      mem.Disturb(Turn(env, i));
      if val != bits {
        mem.ClearExclusive();
        ret := {};
        break;
      }
      val := ret - bits;
      var res := mem.StoreExclusive(val);
      if res == 0 {
        break;
      }
      i := i + 1;
    }
  }

  /** atomic_chk32_any */
  method AtomicChk32Any(mem: Memory<Word>, bits: Word, env: seq<Disturbance<Word>>) returns (ret: Word)
    modifies mem
    ensures (ret, mem.word) == Attempts(CheckAny(bits), old(mem.word), env) && !mem.tagged
    ensures env == [] ==>
              if old(mem.word) * bits == {} then ret == {} && mem.word == old(mem.word)
              else ret == old(mem.word) && mem.word == old(mem.word) - bits
  {
    var i := 0;
    while true
      invariant i <= |env|
      invariant Attempts(CheckAny(bits), mem.word, env[i..]) == Attempts(CheckAny(bits), old(mem.word), env)
      decreases |env| - i
    {
      assert Turn(env, i) == Turn(env[i..], 0) && (i < |env| ==> env[i..][1..] == env[i+1..]);
      ret := mem.LoadExclusive();
      mem.Disturb(Turn(env, i));
      if ret * bits == {} {
        mem.ClearExclusive();
        ret := {};
        break;
      }
      var val := ret - bits;
      var res := mem.StoreExclusive(val);
      if res == 0 {
        break;
      }
      i := i + 1;
    }
  }

  /** atomic_inc16_lt */
  method AtomicInc16Lt(mem: Memory<int>, max: nat, env: seq<Disturbance<int>>) returns (ret: int)
    modifies mem
    ensures (ret, mem.word) == Attempts(IncLt(max), old(mem.word), env) && !mem.tagged
    ensures env == [] ==>
              ret == old(mem.word) && mem.word == if ret < max then (ret + 1) % 0x1_0000 else ret
  {
    var i := 0;
    while true
      invariant i <= |env|
      invariant Attempts(IncLt(max), mem.word, env[i..]) == Attempts(IncLt(max), old(mem.word), env)
      decreases |env| - i
    {
      assert Turn(env, i) == Turn(env[i..], 0) && (i < |env| ==> env[i..][1..] == env[i+1..]);
      ret := mem.LoadExclusive();
      mem.Disturb(Turn(env, i));
      if max <= ret {
        mem.ClearExclusive();
        break;
      }
      var val := ret + 1;
      var res := mem.StoreExclusive(val % HALF);
      if res == 0 {
        break;
      }
      i := i + 1;
    }
  }

  /** atomic_inc16_lim */
  method AtomicInc16Lim(mem: Memory<int>, lim: nat, env: seq<Disturbance<int>>) returns (ret: int)
    modifies mem
    ensures (ret, mem.word) == Attempts(IncLim(lim), old(mem.word), env) && !mem.tagged
    ensures env == [] ==>
              ret == old(mem.word) && mem.word == if ret + 1 < lim then (ret + 1) % 0x1_0000 else 0
  {
    var i := 0;
    while true
      invariant i <= |env|
      invariant Attempts(IncLim(lim), mem.word, env[i..]) == Attempts(IncLim(lim), old(mem.word), env)
      decreases |env| - i
    {
      assert Turn(env, i) == Turn(env[i..], 0) && (i < |env| ==> env[i..][1..] == env[i+1..]);
      ret := mem.LoadExclusive();
      var val := ret + 1;
      if lim <= val {
        val := 0;
      }
      mem.Disturb(Turn(env, i));
      var res := mem.StoreExclusive(val % HALF);
      if res == 0 {
        break;
      }
      i := i + 1;
    }
  }

  /** atomic_dec16_nz */
  method AtomicDec16Nz(mem: Memory<int>, env: seq<Disturbance<int>>) returns (ret: int)
    modifies mem
    ensures (ret, mem.word) == Attempts(DecNz(), old(mem.word), env) && !mem.tagged
    ensures env == [] ==>
              ret == old(mem.word) && mem.word == if ret != 0 then (ret - 1) % 0x1_0000 else 0
  {
    var i := 0;
    while true
      invariant i <= |env|
      invariant Attempts(DecNz(), mem.word, env[i..]) == Attempts(DecNz(), old(mem.word), env)
      decreases |env| - i
    {
      assert Turn(env, i) == Turn(env[i..], 0) && (i < |env| ==> env[i..][1..] == env[i+1..]);
      ret := mem.LoadExclusive();
      mem.Disturb(Turn(env, i));
      if ret == 0 {
        mem.ClearExclusive();
        break;
      }
      var val := ret - 1;
      var res := mem.StoreExclusive(val % HALF);
      if res == 0 {
        break;
      }
      i := i + 1;
    }
  }
}
