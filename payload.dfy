/** How the message handler turns the broker's payload bytes into the text it
    hands to the JSON parser (the first lines of callback in src/main.cpp).

    The handler copies the payload byte by byte into a 256-character stack
    buffer and passes that buffer to the parser as a C string, that is, up to
    the first NUL character. The copy writes no terminator, so what the parser
    reads depends on whatever the buffer held before, and on the memory after
    it when the buffer holds no NUL: the model takes that memory, from the
    start of the buffer on, as a parameter, `stale`. CopyAsWritten is the copy
    as the source writes it; CopyTerminated adds the missing terminator.
 */
module Payload {

  /** One byte of the payload. */
  newtype byte = b: int | 0 <= b < 256

  /** The size of the stack buffer msgText. */
  const BufferSize: nat := 256

  /** The C string terminator. */
  const NUL: char := '\0'

  /** The characters of the payload, one per byte, as the (char) cast makes them. */
  function Chars(payload: seq<byte>): seq<char>
  {
    seq(|payload|, i requires 0 <= i < |payload| => payload[i] as int as char)
  }

  /** The C string a character buffer holds: its longest prefix without NUL. */
  function CString(buf: seq<char>): (s: seq<char>)
    ensures |s| <= |buf| && s == buf[..|s|]
    ensures forall i :: 0 <= i < |s| ==> s[i] != NUL
    ensures |s| < |buf| ==> buf[|s|] == NUL
  {
    if buf == [] || buf[0] == NUL then [] else [buf[0]] + CString(buf[1..])
  }

  /** The three properties of CString's contract determine it: a NUL-free
      prefix that ends at a NUL or at the end of the buffer is the C string. */
  lemma CStringUnique(buf: seq<char>, k: nat)
    requires k <= |buf|
    requires forall i :: 0 <= i < k ==> buf[i] != NUL
    requires k == |buf| || buf[k] == NUL
    ensures CString(buf) == buf[..k]
  {
  }

  /** A terminator at position n hides everything after it. */
  lemma TerminatedRead(buf: seq<char>, n: nat)
    requires n < |buf| && buf[n] == NUL
    ensures CString(buf) == CString(buf[..n])
  {
  }

  /** A string without NUL is its own C string. */
  lemma NulFreeText(t: string)
    requires forall i :: 0 <= i < |t| ==> t[i] != NUL
    ensures CString(t) == t
  {
  }

  /** Reading a NUL-free prefix and then going on: the read is the prefix
      followed by the read of what comes after it. */
  lemma CStringAfter(a: seq<char>, b: seq<char>)
    requires forall i :: 0 <= i < |a| ==> a[i] != NUL
    ensures CString(a + b) == a + CString(b)
  {
    var r := CString(b);
    var buf := a + b;
    forall i | 0 <= i < |a| + |r| ensures buf[i] != NUL {
      if i >= |a| {
        assert buf[i] == b[i - |a|] == r[i - |a|];
      }
    }
    if |r| < |b| {
      assert buf[|a| + |r|] == b[|r|];
    }
    CStringUnique(buf, |a| + |r|);
    assert buf[..|a| + |r|] == a + r;
  }

  /** A payload with no zero byte is read back whole. */
  lemma NulFreeRead(payload: seq<byte>)
    requires forall i :: 0 <= i < |payload| ==> payload[i] != 0
    ensures CString(Chars(payload)) == Chars(payload)
  {
  }

  /** What a copy of the payload into msgText leaves there: the payload's
      characters first, the buffer's earlier contents after them. `stale` is
      the memory from the start of msgText on, at least the buffer's length. */
  ghost predicate CopiedOver(payload: seq<byte>, stale: seq<char>, msgText: seq<char>)
    requires |payload| <= BufferSize <= |stale|
  {
    |msgText| == BufferSize &&
    msgText[..|payload|] == Chars(payload) &&
    msgText[|payload|..] == stale[|payload|..BufferSize]
  }

  /** The copy loop as written: one byte per position, no terminator.
      A payload longer than BufferSize would overrun the buffer. */
  method CopyAsWritten(payload: seq<byte>, stale: seq<char>) returns (msgText: seq<char>)
    requires |payload| <= BufferSize <= |stale|
    ensures CopiedOver(payload, stale, msgText)
  {
    var buf := new char[BufferSize](i requires 0 <= i < BufferSize => stale[i]);
    for i := 0 to |payload|
      invariant forall k :: 0 <= k < i ==> buf[k] == payload[k] as int as char
      invariant forall k :: i <= k < BufferSize ==> buf[k] == stale[k]
    {
      buf[i] := payload[i] as int as char;
    }
    msgText := buf[..];
  }

  /** The text the parser reads from msgText once it is terminated: the payload
      up to its first zero byte. */
  function Text(payload: seq<byte>): string
  {
    CString(Chars(payload))
  }

  /** The text the parser reads from msgText as the source leaves it: the
      payload's characters, then the memory after them, up to the first NUL,
      past the end of the buffer if need be. */
  function AsWrittenText(payload: seq<byte>, stale: seq<char>): string
    requires |payload| <= |stale|
  {
    CString(Chars(payload) + stale[|payload|..])
  }

  /** As written, a payload without zero bytes reaches the parser followed by
      whatever the memory after it holds, up to the first NUL there. */
  lemma AsWrittenReadsOn(payload: seq<byte>, stale: seq<char>)
    requires |payload| <= |stale|
    requires forall i :: 0 <= i < |payload| ==> payload[i] != 0
    ensures AsWrittenText(payload, stale) == Chars(payload) + CString(stale[|payload|..])
  {
    var t := Chars(payload);
    forall i | 0 <= i < |t| ensures t[i] != NUL {
      assert t[i] as int == payload[i] as int;
    }
    CStringAfter(t, stale[|payload|..]);
  }

  /** The copy with the terminator the source leaves out; whatever the memory
      held before, the parser reads exactly Text(payload). */
  method CopyTerminated(payload: seq<byte>, stale: seq<char>) returns (msgText: seq<char>)
    requires |payload| < BufferSize <= |stale|
    ensures |msgText| == BufferSize
    ensures msgText[..|payload|] == Chars(payload) && msgText[|payload|] == NUL
    ensures CString(msgText + stale[BufferSize..]) == Text(payload)
  {
    msgText := CopyAsWritten(payload, stale);
    msgText := msgText[|payload| := NUL];
    assert msgText[..|payload|] == Chars(payload);
    var mem := msgText + stale[BufferSize..];
    assert mem[..|payload|] == Chars(payload);
    TerminatedRead(mem, |payload|);
  }

  /** Without the terminator the parser reads past the payload: when the rest
      of the buffer holds no NUL, the read covers all BufferSize characters of
      msgText and goes on into the memory after it. */
  lemma UnterminatedReadsStale(payload: seq<byte>, stale: seq<char>, msgText: seq<char>)
    requires |payload| <= BufferSize <= |stale|
    requires CopiedOver(payload, stale, msgText)
    requires forall i :: 0 <= i < |payload| ==> payload[i] != 0
    requires forall i :: |payload| <= i < BufferSize ==> stale[i] != NUL
    ensures |AsWrittenText(payload, stale)| >= BufferSize
    ensures AsWrittenText(payload, stale)[..BufferSize] == msgText
  {
  }

  /** A concrete instance: the payload "{}" over a buffer that held 'x'
      everywhere reaches the parser as "{}" followed by 254 'x' and then by
      whatever follows the buffer. */
  lemma UnterminatedEmptyObject(stale: seq<char>)
    requires |stale| >= BufferSize
    requires forall i :: 0 <= i < BufferSize ==> stale[i] == 'x'
    ensures AsWrittenText([0x7B, 0x7D], stale) != Chars([0x7B, 0x7D])
    ensures |AsWrittenText([0x7B, 0x7D], stale)| >= BufferSize
    ensures AsWrittenText([0x7B, 0x7D], stale)[..BufferSize] == "{}" + seq(BufferSize - 2, _ => 'x')
  {
  }
}
