/** `struct MemoryStruct` and `WriteMemoryCallback`: the growable buffer that
    collects the HTTP response body chunk by chunk. */
module MemoryBuffer {
  import CText

  type byte = CText.byte

  /** The allocated block `memory` and the number `size` of body bytes held in it. */
  datatype Buffer = Buffer(memory: seq<byte>, size: nat)

  /** Every block the program allocates is one byte longer than `size`. */
  predicate Allocated(b: Buffer)
  {
    |b.memory| == b.size + 1
  }

  /** The body bytes are followed by a NUL terminator. */
  predicate Terminated(b: Buffer)
  {
    Allocated(b) && b.memory[b.size] == 0
  }

  /** The body bytes received so far. */
  function Data(b: Buffer): seq<byte>
    requires Allocated(b)
  {
    b.memory[..b.size]
  }

  /** The C string handed to `parse_response`: the block up to its first NUL.
      Only a terminated block has one within bounds. */
  function Text(b: Buffer): seq<byte>
    requires Terminated(b)
  {
    CText.UpToNul(b.memory, 0)
  }

  /** Whether `realloc` returns a block or NULL; the allocator decides. */
  datatype Alloc = Granted | Refused

  /** `WriteMemoryCallback(contents, size, nmemb, &b)`: the new buffer and the
      value returned to libcurl. On a refused allocation nothing changes and 0 is
      returned; otherwise the `size * nmemb` bytes of `contents` land right after
      the old body, the old body is kept, a terminator follows, and the byte count
      is returned. */
  function WriteMemory(b: Buffer, contents: seq<byte>, size: nat, nmemb: nat, alloc: Alloc): (r: (Buffer, nat))
    requires Allocated(b)
    requires |contents| == size * nmemb
    ensures alloc.Refused? ==> r == (b, 0)
    ensures alloc.Granted? ==>
              && r.1 == size * nmemb
              && r.0.size == b.size + size * nmemb
              && Terminated(r.0)
              && (forall k :: 0 <= k < b.size ==> r.0.memory[k] == b.memory[k])
              && (forall k :: 0 <= k < |contents| ==> r.0.memory[b.size + k] == contents[k])
  {
    var realsize := size * nmemb;
    if alloc.Refused? then (b, 0)
    else
      // realloc keeps the old block and adds `realsize` bytes whose value is
      // indeterminate; every one of them is overwritten below.
      var grown := b.memory + seq(realsize, _ => 0 as byte);
      var copied := grown[..b.size] + contents + grown[b.size + realsize..];
      var terminated := copied[b.size + realsize := 0];
      (Buffer(terminated, b.size + realsize), realsize)
  }

  /** The new body is the old body followed by the chunk. */
  lemma WriteAppends(b: Buffer, contents: seq<byte>, size: nat, nmemb: nat)
    requires Allocated(b)
    requires |contents| == size * nmemb
    ensures Data(WriteMemory(b, contents, size, nmemb, Granted).0) == Data(b) + contents
  {
    var r := WriteMemory(b, contents, size, nmemb, Granted).0;
    assert |Data(r)| == |Data(b) + contents|;
    forall k | 0 <= k < |Data(r)|
      ensures Data(r)[k] == (Data(b) + contents)[k]
    {
      if k >= b.size {
        assert Data(r)[k] == r.memory[b.size + (k - b.size)];
      }
    }
  }

  /** How libcurl splits the body into chunks does not matter: two writes in a
      row leave the same buffer as one write of both chunks. */
  lemma SplitWrites(b: Buffer, c1: seq<byte>, c2: seq<byte>)
    requires Allocated(b)
    ensures var once := WriteMemory(b, c1, 1, |c1|, Granted).0;
            WriteMemory(once, c2, 1, |c2|, Granted).0 == WriteMemory(b, c1 + c2, 1, |c1 + c2|, Granted).0
  {
    var once := WriteMemory(b, c1, 1, |c1|, Granted).0;
    var twice := WriteMemory(once, c2, 1, |c2|, Granted).0;
    var whole := WriteMemory(b, c1 + c2, 1, |c1 + c2|, Granted).0;
    WriteAppends(b, c1, 1, |c1|);
    WriteAppends(once, c2, 1, |c2|);
    WriteAppends(b, c1 + c2, 1, |c1 + c2|);
    assert Data(twice) == Data(whole);
    BlockIsDataAndTerminator(twice);
    BlockIsDataAndTerminator(whole);
  }

  /** A terminated block is its body followed by the terminator. */
  lemma BlockIsDataAndTerminator(b: Buffer)
    requires Terminated(b)
    ensures b.memory == Data(b) + [0]
  {
  }

  /** All chunks of a body, joined in arrival order. */
  function Concat(chunks: seq<seq<byte>>): seq<byte>
  {
    if |chunks| == 0 then [] else Concat(chunks[..|chunks| - 1]) + chunks[|chunks| - 1]
  }

  /** The buffer after libcurl has delivered `chunks` one write at a time, each
      as `size` 1 and `nmemb` its length, with every allocation granted. */
  function Receive(b: Buffer, chunks: seq<seq<byte>>): (r: Buffer)
    requires Allocated(b)
    ensures Allocated(r)
    ensures |chunks| > 0 ==> Terminated(r)
    ensures Data(r) == Data(b) + Concat(chunks)
  {
    if |chunks| == 0 then b
    else
      var before := Receive(b, chunks[..|chunks| - 1]);
      var last := chunks[|chunks| - 1];
      WriteAppends(before, last, 1, |last|);
      WriteMemory(before, last, 1, |last|, Granted).0
  }

  /** A terminated buffer whose body holds no NUL byte reads back, as a C
      string, as exactly its body. */
  lemma TextIsData(b: Buffer)
    requires Terminated(b)
    requires 0 !in Data(b)
    ensures Text(b) == Data(b)
  {
    assert b.memory == Data(b) + [0] + [];
    CText.TerminatedView(Data(b), 0, []);
  }

  // ---------------------------------------------------------------------------
  // The buffer before the first write

  /** The buffer as `get_definition` sets it up: `malloc(1)` leaves the single
      byte indeterminate (`garbage`) and the size 0. */
  function InitialAsWritten(garbage: byte): Buffer
  {
    Buffer([garbage], 0)
  }

  /** When no write happens, as for an empty response body, the block handed to
      `parse_response` has no terminator for any non-zero indeterminate byte. */
  lemma InitialAsWrittenUnterminated(garbage: byte)
    requires garbage != 0
    ensures Receive(InitialAsWritten(garbage), []) == InitialAsWritten(garbage)
    ensures !Terminated(InitialAsWritten(garbage))
  {
  }

  /** One write or more repairs it, whatever the indeterminate byte was. */
  lemma InitialAsWrittenAfterWrites(garbage: byte, chunks: seq<seq<byte>>)
    requires |chunks| > 0
    ensures Terminated(Receive(InitialAsWritten(garbage), chunks))
    ensures Data(Receive(InitialAsWritten(garbage), chunks)) == Concat(chunks)
  {
  }

  /** The empty buffer with its terminator in place, as the buffer's
      terminated invariant intends. */
  function Initial(): (r: Buffer)
    ensures Terminated(r)
    ensures Data(r) == [] && Text(r) == []
  {
    Buffer([0], 0)
  }

  /** From the terminated start, every sequence of writes, none included, leaves
      a terminated buffer holding exactly the concatenated chunks; a body with no
      NUL byte reaches the parser whole. */
  lemma ReceivedBody(chunks: seq<seq<byte>>)
    ensures Terminated(Receive(Initial(), chunks))
    ensures Data(Receive(Initial(), chunks)) == Concat(chunks)
    ensures 0 !in Concat(chunks) ==> Text(Receive(Initial(), chunks)) == Concat(chunks)
  {
    var r := Receive(Initial(), chunks);
    if 0 !in Concat(chunks) {
      TextIsData(r);
    }
  }
}
