/** Whole lives of a slice reader (mem/buffer_slice.go): any mix of its operations, ended by Close. */
module ReaderRuns {
  import opened Bytes
  import opened Results
  import opened Buffers
  import opened SliceReader

  datatype Step = ReadUpTo(n: nat) | OneByte | CloseNow

  /** The bytes a script asks for before it first closes the reader. */
  function Wanted(script: seq<Step>): nat {
    if script == [] then 0
    else match script[0]
      case ReadUpTo(n) => n + Wanted(script[1..])
      case OneByte => 1 + Wanted(script[1..])
      case CloseNow => 0
  }

  function Min(a: nat, b: nat): nat {
    if a < b then a else b
  }

  /** One operation, the bytes it delivers being the next of what is left. */
  method Perform(r: Reader, step: Step) returns (got: bytes)
    requires r.Valid()
    modifies r, r.mem
    ensures r.Valid()
    ensures !step.CloseNow? ==>
            got == old(r.rest)[..Min(Wanted([step]), |old(r.rest)|)] && r.rest == old(r.rest)[|got|..]
    ensures step.CloseNow? ==> got == [] && r.rest == [] && r.data == []
  {
    match step
    case ReadUpTo(n) =>
      var buf := new byte[n];
      var k, _ := r.Read(buf);
      assert Wanted([step]) == n + Wanted([]);
      got := buf[..k];
    case OneByte =>
      var b := r.ReadByte();
      assert Wanted([step]) == 1 + Wanted([]);
      got := if b.Some? then [b.value] else [];
    case CloseNow =>
      r.Close();
      got := [];
  }

  /** got was delivered and rest is left when `todo` remains of the script. */
  ghost predicate Progress(flat: bytes, target: nat, todo: seq<Step>, got: bytes, rest: bytes, closed: bool) {
    && |got| <= |flat| && got == flat[..|got|]
    && rest == (if closed then [] else flat[|got|..])
    && target == if closed then |got| else Min(|got| + Wanted(todo), |flat|)
  }

  lemma ProgressRead(
    flat: bytes, target: nat, todo: seq<Step>, got: bytes, rest: bytes, closed: bool, more: bytes, rest': bytes)
    requires Progress(flat, target, todo, got, rest, closed) && todo != [] && !todo[0].CloseNow?
    requires more == rest[..Min(Wanted([todo[0]]), |rest|)] && rest' == rest[|more|..]
    ensures Progress(flat, target, todo[1..], got + more, rest', closed)
  {
    assert Wanted([todo[0]]) + Wanted(todo[1..]) == Wanted(todo);
    if closed {
      assert got + more == got;
    } else {
      assert got + more == flat[..|got| + |more|];
    }
  }

  /** NewReader, any script, Close: the bytes delivered are the first of the flat string, as many as were asked
      for and are there, and afterwards every handle has the references it had before. */
  method Session(mem: Memory, s: BufferSlice, script: seq<Step>) returns (got: bytes)
    requires AllLive(mem.heap, s)
    modifies mem
    ensures got == old(Flat(mem.heap, s))[..Min(Wanted(script), |old(Flat(mem.heap, s))|)]
    ensures forall h: HandleId :: Owed(mem.heap, h) == old(Owed(mem.heap, h))
  {
    ghost var flat := Flat(mem.heap, s);
    ghost var target, closed := Min(Wanted(script), |flat|), false;
    var r := new Reader(mem, s);
    var todo;
    got, todo := [], script;
    while todo != []
      invariant r.Valid()
      invariant Progress(flat, target, todo, got, r.rest, closed)
      decreases |todo|
    {
      ghost var rest := r.rest;
      var more := Perform(r, todo[0]);
      if todo[0].CloseNow? {
        closed := true;
      } else {
        ProgressRead(flat, target, todo, got, rest, closed, more, r.rest);
      }
      got, todo := got + more, todo[1..];
    }
    r.Close();
  }
}
