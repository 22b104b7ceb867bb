/** The table of pending calls (call.go, client.go). Each method is one critical section of the client's lock,
    so every order of calls to them is an interleaving. */
module CallTable {
  import opened Results

  const MAX_UINT64 := 0xFFFF_FFFF_FFFF_FFFF

  datatype Outcome = Unresolved | ClientClosing

  class Call {
    var seqNo: nat
    var err: Outcome
    var notified: nat   // sends on the Done channel, which has room for one

    constructor ()
      ensures seqNo == 0 && err == Unresolved && notified == 0
    {
      seqNo, err, notified := 0, Unresolved, 0;
    }
  }

  /** What became of an issued sequence number. */
  datatype Fate = Pending | Answered | WriteFailed | Flushed

  datatype RecvError = MissingSequence | SequenceMismatch

  class Table {
    var pending: Option<map<nat, Call>>   // None is the nil map Close leaves
    var sequence: nat
    var closing: bool
    var shutdown: bool

    ghost var fate: map<nat, Fate>

    ghost function Calls(): set<Call>
      reads this
    {
      if pending.None? then {} else set q | q in pending.value :: pending.value[q]
    }

    /** Every number issued so far has one fate; the pending ones are the table's keys, each entry keyed by
        its own number; after Close there is no table and nothing is pending. */
    ghost predicate Valid()
      reads this, Calls()
    {
      && sequence <= MAX_UINT64
      && closing == shutdown == pending.None?
      && (forall q :: q in fate <==> 1 <= q <= sequence)
      && (pending.None? ==> forall q :: q in fate ==> fate[q] != Pending)
      && (pending.Some? ==>
            && (forall q :: q in pending.value <==> q in fate && fate[q] == Pending)
            && (forall q :: q in pending.value ==> pending.value[q].seqNo == q && pending.value[q].err == Unresolved))
    }

    /** No fate but Pending ever changes, and numbers are only added. */
    twostate predicate Settled()
      reads this
    {
      forall q :: q in old(fate) ==> q in fate && (old(fate)[q] != Pending ==> fate[q] == old(fate)[q])
    }

    constructor ()
      ensures Valid() && pending == Some(map[]) && sequence == 0 && !closing && fate == map[]
    {
      pending, sequence, closing, shutdown, fate := Some(map[]), 0, false, false, map[];
    }

    /** sendMsg's critical section: the next number, unless the client is closing. */
    method Issue(call: Call) returns (r: Option<nat>)
      requires Valid() && call !in Calls() && call.err == Unresolved && sequence < MAX_UINT64
      modifies this, call
      ensures Valid() && Settled()
      ensures r.None? <==> old(closing)
      ensures r.None? ==> pending == old(pending) && fate == old(fate) && sequence == old(sequence)
      ensures r.Some? ==>
        && r.value == old(sequence) + 1 == sequence == call.seqNo
        && r.value !in old(fate) && fate == old(fate)[r.value := Pending]
        && old(pending).Some? && pending == Some(old(pending).value[r.value := call])
    {
      if closing || shutdown { return None; }
      sequence := (sequence + 1) % (MAX_UINT64 + 1);
      call.seqNo := sequence;
      pending := Some(pending.value[sequence := call]);
      fate := fate[sequence := Pending];
      return Some(sequence);
    }

    /** sendMsg after a failed write: delete(c.pending, seq), which does nothing on a nil or missing entry. */
    method ForgetFailedWrite(q: nat)
      requires Valid()
      modifies this
      ensures Valid() && Settled() && sequence == old(sequence) && closing == old(closing)
      ensures if q in old(fate) && old(fate)[q] == Pending
              then && fate == old(fate)[q := WriteFailed]
                   && old(pending).Some? && pending == Some(old(pending).value - {q})
              else fate == old(fate) && pending == old(pending)
    {
      if pending.Some? {
        if q in pending.value {
          fate := fate[q := WriteFailed];
          pending := Some(pending.value - {q});
        }
      }
    }

    /** recvMsg's critical section on a decoded reply: the call is found and removed exactly when its number
        is pending, so a number is answered once; the mismatch branch is never taken. */
    method Receive(q: nat) returns (r: Result<Call, RecvError>)
      requires Valid()
      modifies this
      ensures Valid() && Settled() && sequence == old(sequence) && closing == old(closing)
      ensures r.Ok? <==> q in old(fate) && old(fate)[q] == Pending
      ensures r.Ok? ==> && old(pending).Some? && q in old(pending).value
                        && r.value == old(pending).value[q] && r.value.seqNo == q
                        && fate == old(fate)[q := Answered] && pending == Some(old(pending).value - {q})
      ensures r.Err? ==> r.error == MissingSequence && fate == old(fate) && pending == old(pending)
    {
      if pending.None? || q !in pending.value { return Err(MissingSequence); }
      var call := pending.value[q];
      if call.seqNo != q { return Err(SequenceMismatch); }
      fate := fate[q := Answered];
      pending := Some(pending.value - {q});
      return Ok(call);
    }

    /** The fates after Close. */
    ghost function Flush(f: map<nat, Fate>): map<nat, Fate> {
      map q | q in f :: if f[q] == Pending then Flushed else f[q]
    }

    /** Close: each pending call is failed and notified once, and the table is gone, so nothing is inserted
        any more. */
    method Close()
      requires Valid()
      modifies this, Calls()
      ensures Valid() && Settled() && closing && pending == None && sequence == old(sequence)
      ensures fate == Flush(old(fate))
      ensures forall c :: c in old(Calls()) ==>
                c.err == ClientClosing && c.notified == (if old(c.notified) == 0 then 1 else old(c.notified))
    {
      if closing {
        assert Flush(fate) == fate;
        return;
      }
      closing, shutdown := true, true;
      var table := pending.value;
      NotifyAll(table);
      fate := Flush(fate);
      pending := None;
    }
  }

  /** Close's loop over the pending calls, in whatever order. */
  method NotifyAll(table: map<nat, Call>)
    requires forall q :: q in table ==> table[q].seqNo == q
    modifies set q | q in table :: table[q]
    ensures forall q :: q in table ==>
      && table[q].err == ClientClosing && table[q].seqNo == q
      && table[q].notified == (if old(table[q].notified) == 0 then 1 else old(table[q].notified))
  {
    var todo := table.Keys;
    while todo != {}
      invariant todo <= table.Keys
      invariant forall q :: q in table ==> table[q].seqNo == q
      invariant forall q :: q in todo ==> table[q].notified == old(table[q].notified)
      invariant forall q :: q in table && q !in todo ==>
        && table[q].err == ClientClosing
        && table[q].notified == (if old(table[q].notified) == 0 then 1 else old(table[q].notified))
      decreases |todo|
    {
      var q :| q in todo;
      var call := table[q];
      call.err := ClientClosing;
      if call.notified == 0 { call.notified := 1; }
      todo := todo - {q};
    }
  }
}
