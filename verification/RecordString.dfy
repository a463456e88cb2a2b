/** String members of a record (xs/record_string.c): the read-write kind, which owns a block of the
    C heap, and the fixed kind, which lives in the record itself. */
module RecordString {
  import opened TypeCodes
  import opened Errors
  import opened Words
  import opened Views

  type Id = nat

  datatype Reply = Croak(error: Error) | Empty | Text(bytes: seq<Byte>)

  // ---- Read-write members ----

  /** The C heap and the member's pointer.  `freed` counts frees per block. */
  datatype Heap = Heap(ptr: Option<Id>, blocks: map<Id, seq<Byte>>, next: Id, freed: multiset<Id>)

  /** One access: read, assign a string, or assign undef.  `moves` is realloc's choice. */
  datatype Request = Get | Put(value: seq<Byte>, moves: bool) | PutUndef

  /** The state after an access to a writable record. */
  function Assign(h: Heap, request: Request): Heap {
    match request
    case Get => h
    case Put(value, moves) =>
      if h.ptr.None? then
        h.(ptr := Some(h.next), blocks := h.blocks[h.next := value + [0]], next := h.next + 1)
      else if moves then
        Heap(Some(h.next), (h.blocks - {h.ptr.value})[h.next := value + [0]], h.next + 1,
            h.freed + multiset{h.ptr.value})
      else h.(blocks := h.blocks[h.ptr.value := value + [0]])
    case PutUndef =>
      if h.ptr.None? then h
      else h.(ptr := None, blocks := h.blocks - {h.ptr.value}, freed := h.freed + multiset{h.ptr.value})
  }

  /** After any access; a read-only record refuses assignments. */
  function Accessed(h: Heap, readOnly: bool, request: Request): Heap {
    if readOnly then h else Assign(h, request)
  }

  function Run(h: Heap, readOnly: bool, requests: seq<Request>): Heap {
    if requests == [] then h
    else Accessed(Run(h, readOnly, requests[..|requests| - 1]), readOnly, requests[|requests| - 1])
  }

  /** DESTROY assigns undef, unless the record is read-only: such records are copies that closures are
      given, and their strings belong to C. */
  function Destroyed(h: Heap, readOnly: bool): Heap {
    if readOnly then h else Assign(h, PutUndef)
  }

  /** What the member should hold: the last string assigned, unless undef was assigned since. */
  function Held(initial: Option<seq<Byte>>, readOnly: bool, requests: seq<Request>): Option<seq<Byte>> {
    if readOnly || requests == [] then initial
    else
      match requests[|requests| - 1]
      case Get => Held(initial, readOnly, requests[..|requests| - 1])
      case Put(value, _) => Some(value)
      case PutUndef => None
  }

  /** What realloc and free may be given: NULL or an allocated block. */
  predicate Sound(h: Heap) {
    h.ptr.Some? ==> h.ptr.value in h.blocks
  }

  ghost predicate Bounded(h: Heap) {
    (forall id :: id in h.blocks ==> id < h.next) && Sound(h)
  }

  /** The member points nowhere, or to the held string and its terminator. */
  predicate Holds(h: Heap, held: Option<seq<Byte>>) {
    match held
    case None => h.ptr == None
    case Some(value) => h.ptr.Some? && h.ptr.value in h.blocks && h.blocks[h.ptr.value] == value + [0]
  }

  /** Conservation for one block: it was there or was handed out since, and is either still there or
      has been freed once. */
  ghost predicate Ledger(h: Heap, k: Heap, id: Id) {
    && h.next <= k.next
    && k.freed[id] + (if id in k.blocks then 1 else 0) ==
       h.freed[id] + (if id in h.blocks || h.next <= id < k.next then 1 else 0)
    && (id in h.blocks && h.ptr != Some(id) ==> id in k.blocks && k.blocks[id] == h.blocks[id] && k.ptr != Some(id))
    && (id in k.blocks && (id !in h.blocks || h.ptr == Some(id)) ==> k.ptr == Some(id))
  }

  /** Ownership over any sequence of accesses: the member owns no block or exactly one, of length
      len + 1, holding the last string; every block it owned before is freed exactly once; and no
      other block of the heap is touched. */
  lemma {:induction false} StringOwnership(h: Heap, readOnly: bool, initial: Option<seq<Byte>>, requests: seq<Request>)
    requires Bounded(h) && Holds(h, initial)
    ensures var k := Run(h, readOnly, requests);
            Bounded(k) && Holds(k, Held(initial, readOnly, requests)) && forall id: Id :: Ledger(h, k, id)
  {
    RunLedger(h, readOnly, requests);
    if requests != [] {
      StringOwnership(h, readOnly, initial, requests[..|requests| - 1]);
    }
  }

  lemma {:induction false} RunLedger(h: Heap, readOnly: bool, requests: seq<Request>)
    requires Bounded(h)
    ensures var k := Run(h, readOnly, requests); Bounded(k) && forall id: Id :: Ledger(h, k, id)
  {
    if requests != [] {
      var earlier := requests[..|requests| - 1];
      RunLedger(h, readOnly, earlier);
      var j, k := Run(h, readOnly, earlier), Run(h, readOnly, requests);
      assert k == Accessed(j, readOnly, requests[|requests| - 1]);
      forall id: Id
        ensures Ledger(h, k, id)
      {
        assert Ledger(h, j, id);
      }
    }
  }

  /** Destroying a record, after any accesses.  A read-only record has refused every assignment and
      frees nothing: memory is as it was found.  A writable one has freed every block realloc made for
      the member and the block the member pointed to at first, each once, and left the others alone. */
  lemma {:induction false} DestroyReleases(h: Heap, readOnly: bool, requests: seq<Request>, id: Id)
    requires Bounded(h)
    ensures var k := Destroyed(Run(h, readOnly, requests), readOnly);
            if readOnly then k == h
            else
              && k.ptr == None
              && k.freed[id] == h.freed[id] + (if h.next <= id < k.next || h.ptr == Some(id) then 1 else 0)
              && (id in k.blocks <==> id in h.blocks && h.ptr != Some(id))
              && (id in k.blocks ==> k.blocks[id] == h.blocks[id])
  {
    if readOnly {
      NothingWritten(h, requests);
    } else {
      RunLedger(h, readOnly, requests);
      assert Ledger(h, Run(h, readOnly, requests), id);
    }
  }

  lemma {:induction false} NothingWritten(h: Heap, requests: seq<Request>)
    ensures Run(h, true, requests) == h
  {
    if requests != [] {
      NothingWritten(h, requests[..|requests| - 1]);
    }
  }

  /** So no block is ever freed but those realloc made for the member if and only if the record is
      read-only or the member was NULL to begin with.  It is in a record made by `new`; a writable
      record copied from C memory frees C's own block. */
  lemma {:induction false} FreesOnlyItsOwn(h: Heap, readOnly: bool, requests: seq<Request>)
    requires Bounded(h)
    ensures var k := Destroyed(Run(h, readOnly, requests), readOnly);
            (forall id: Id :: id < h.next ==> k.freed[id] == h.freed[id]) <==> readOnly || h.ptr == None
  {
    var k := Destroyed(Run(h, readOnly, requests), readOnly);
    if readOnly || h.ptr == None {
      forall id: Id | id < h.next
        ensures k.freed[id] == h.freed[id]
      {
        DestroyReleases(h, readOnly, requests, id);
      }
    } else {
      DestroyReleases(h, readOnly, requests, h.ptr.value);
      assert h.ptr.value < h.next && k.freed[h.ptr.value] != h.freed[h.ptr.value];
    }
  }

  /** Every realloc and free, the destructor's included, is given NULL or an allocated block. */
  ghost predicate AllSound(h: Heap, readOnly: bool, requests: seq<Request>) {
    readOnly ||
    forall n :: 0 <= n <= |requests| && (n < |requests| ==> !requests[n].Get?) ==>
      Sound(Run(h, readOnly, requests[..n]))
  }

  /** That is so if and only if the record is read-only or the pointer found in it, if any, was to an
      allocated block; whatever is done in between. */
  lemma {:induction false} FreesAreSound(h: Heap, readOnly: bool, requests: seq<Request>)
    ensures AllSound(h, readOnly, requests) <==> readOnly || Sound(h)
  {
    if !readOnly && Sound(h) {
      forall n | 0 <= n <= |requests|
        ensures Sound(Run(h, readOnly, requests[..n]))
      {
        StaysSound(h, requests[..n]);
      }
    } else if !readOnly {
      var n := FirstAssignment(h, requests);
      assert !Sound(Run(h, readOnly, requests[..n]));
    }
  }

  lemma {:induction false} StaysSound(h: Heap, requests: seq<Request>)
    requires Sound(h)
    ensures Sound(Run(h, false, requests))
  {
    if requests != [] {
      StaysSound(h, requests[..|requests| - 1]);
    }
  }

  /** Where the first assignment is, or the end; reads before it change nothing. */
  lemma {:induction false} FirstAssignment(h: Heap, requests: seq<Request>) returns (n: nat)
    ensures n <= |requests| && (n < |requests| ==> !requests[n].Get?) && Run(h, false, requests[..n]) == h
  {
    n := 0;
    while n < |requests| && requests[n].Get?
      invariant n <= |requests| && Run(h, false, requests[..n]) == h
    {
      assert requests[..n + 1][..n] == requests[..n];
      n := n + 1;
    }
  }

  /** A C string: the bytes before the first NUL. */
  function CString(bytes: seq<Byte>): (r: seq<Byte>)
    ensures r <= bytes && 0 !in r
    ensures |r| < |bytes| ==> bytes[|r|] == 0
  {
    if bytes == [] || bytes[0] == 0 then [] else [bytes[0]] + CString(bytes[1..])
  }

  /** The accessor gives a held string back whole exactly when it has no NUL inside. */
  lemma {:induction false} ReadsBackWhole(value: seq<Byte>)
    ensures CString(value + [0]) == value <==> 0 !in value
  {
    if value != [] {
      ReadsBackWhole(value[1..]);
      assert (value + [0])[1..] == value[1..] + [0];
    }
  }

  /** ffi_pl_record_accessor_string_rw. */
  class StringMember {
    const readOnly: bool
    var ptr: Option<Id>
    var blocks: map<Id, seq<Byte>>
    var next: Id
    ghost var freed: multiset<Id>

    /** A record with the pointer found in it: NULL if made by `new`, C's if copied from C memory. */
    constructor (readOnly: bool, ptr: Option<Id>, blocks: map<Id, seq<Byte>>, next: Id)
      ensures this.readOnly == readOnly && State() == Heap(ptr, blocks, next, multiset{})
    {
      this.readOnly := readOnly;
      this.ptr, this.blocks, this.next, freed := ptr, blocks, next, multiset{};
    }

    ghost function State(): Heap
      reads this
    {
      Heap(ptr, blocks, next, freed)
    }

    /** realloc(old, size), leaving the bytes to the caller. */
    method Realloc(old_: Option<Id>, bytes: seq<Byte>, moves: bool) returns (block: Id)
      requires old_.Some? ==> old_.value in blocks
      modifies this`blocks, this`next, this`freed
      ensures old_.None? ==>
                && block == old(next) && next == old(next) + 1
                && freed == old(freed) && blocks == old(blocks)[block := bytes]
      ensures old_.Some? && moves ==>
                && block == old(next) && next == old(next) + 1
                && freed == old(freed) + multiset{old_.value}
                && blocks == (old(blocks) - {old_.value})[block := bytes]
      ensures old_.Some? && !moves ==>
                && block == old_.value && next == old(next)
                && freed == old(freed) && blocks == old(blocks)[block := bytes]
    {
      if old_.Some? && !moves {
        block := old_.value;
      } else {
        block, next := next, next + 1;
        if old_.Some? {
          blocks := blocks - {old_.value};
          freed := freed + multiset{old_.value};
        }
      }
      blocks := blocks[block := bytes];
    }

    method Access(request: Request, void: bool) returns (reply: Reply)
      requires Bounded(State())
      modifies this
      ensures Bounded(State())
      ensures State() == Accessed(old(State()), readOnly, request)
      ensures reply == if readOnly && !request.Get? then Croak(RecordReadOnly)
                       else if void || ptr.None? then Empty else Text(CString(blocks[ptr.value]))
    {
      if !request.Get? {
        if readOnly {
          return Croak(RecordReadOnly);
        }
        match request {
          case Put(value, moves) =>
            var block := Realloc(ptr, value + [0], moves);
            ptr := Some(block);
          case PutUndef =>
            if ptr != None {
              freed := freed + multiset{ptr.value};
              blocks := blocks - {ptr.value};
              ptr := None;
            }
        }
      }
      if void || ptr == None {
        return Empty;
      }
      reply := Text(CString(blocks[ptr.value]));
    }

    /** DESTROY. */
    method Destroy()
      requires Bounded(State())
      modifies this
      ensures State() == Destroyed(old(State()), readOnly)
    {
      if readOnly {
        return;
      }
      var _ := Access(PutUndef, true);
    }
  }

  // ---- Fixed members ----

  /** ffi_pl_record_accessor_string_fixed: at most `count` bytes are copied over the member, the
      rest of it stays, and all `count` bytes are read back; undef is refused. */
  method AccessFixed(data: array<Byte>, readOnly: bool, offset: nat, count: nat, value: Option<Option<seq<Byte>>>,
                     void: bool)
    returns (reply: Reply)
    requires offset + count <= data.Length
    modifies data
    ensures reply.Croak? <==> value.Some? && (readOnly || value.value.None?)
    ensures reply.Croak? ==> reply.error == if readOnly then RecordReadOnly else UndefFixed
    ensures value == None || reply.Croak? ==> data[..] == old(data[..])
    ensures value.Some? && !reply.Croak? ==>
              var text := value.value.value; var kept := if |text| > count then count else |text|;
              data[..] == old(data[..offset]) + text[..kept] + old(data[offset + kept..])
    ensures !reply.Croak? ==> reply == if void then Empty else Text(data[offset..offset + count])
  {
    if value.Some? {
      if readOnly {
        return Croak(RecordReadOnly);
      }
      if value.value == None {
        return Croak(UndefFixed);
      }
      var text := value.value.value;
      var len := |text|;
      if len > count {
        len := count;
      }
      Poke(data, offset, text[..len]);
    }
    if void {
      return Empty;
    }
    reply := Text(data[offset..offset + count]);
  }
}
