/** The read/close test double (testkit/io.go): a reader that hands out a
    fixed byte content, or fails with a configured error, or panics. A Go
    panic is modelled as a distinct outcome; the configured errors are values
    of the type parameter E, and a nil error is `Nil`. */
module TestkitIo {

  datatype Error<E> = Nil | Err(err: E)

  /** What a call returns: an error (or nil), io.EOF, or a panic. */
  datatype Outcome<E> = Ok | Failed(err: E) | Eof | Panicked

  /** How a successful read splits the content: `n` bytes go to the caller,
      `rest` stays, and `eof` says whether the content ran out before the
      caller's buffer was full. */
  datatype Step = Step(n: nat, rest: seq<bv8>, eof: bool)

  /** The copy of a Read into a buffer with room for `room` bytes. */
  function Consume(content: seq<bv8>, room: nat): (r: Step)
    ensures r.n == if |content| < room then |content| else room
    ensures content[..r.n] + r.rest == content
    ensures r.eof <==> |content| < room
    ensures r.eof ==> r.rest == []
  {
    if |content| >= room then Step(room, content[room..], false)
    else Step(|content|, [], true)
  }

  /** Reading into an empty buffer takes nothing and reports no error. */
  lemma EmptyBufferTakesNothing(content: seq<bv8>)
    ensures Consume(content, 0) == Step(0, content, false)
  {
  }

  /** Successive reads hand out the content in order: the bytes of two reads
      are the first bytes of the content, and what remains is the rest. */
  lemma {:induction false} ReadsConcatenate(content: seq<bv8>, room1: nat, room2: nat)
    ensures var s1 := Consume(content, room1);
      var s2 := Consume(s1.rest, room2);
      && content[..s1.n + s2.n] == content[..s1.n] + s1.rest[..s2.n]
      && s2.rest == content[s1.n + s2.n..]
  {
    var s1 := Consume(content, room1);
    var s2 := Consume(s1.rest, room2);
    assert s1.rest == content[s1.n..];
    assert s2.rest == s1.rest[s2.n..];
  }

  /** The outcome of Close: the configured error first, then the panic, else nil. */
  function CloseOutcome<E>(closeError: Error<E>, closePanic: bool): (r: Outcome<E>)
    ensures r != Eof
    ensures r.Failed? <==> closeError.Err?
    ensures r.Failed? ==> r.err == closeError.err
    ensures r == Panicked <==> closeError == Nil && closePanic
    ensures r == Ok <==> closeError == Nil && !closePanic
  {
    match closeError
    case Err(e) => Failed(e)
    case Nil => if closePanic then Panicked else Ok
  }

  class ReadCloserMock<E> {
    var cnt: seq<bv8>
    const readError: Error<E>
    const closeError: Error<E>
    const readPanic: bool
    const closePanic: bool

    /** NewReadCloserMock. */
    constructor(cnt: seq<bv8>, readError: Error<E>, closeError: Error<E>, readPanic: bool, closePanic: bool)
      ensures this.cnt == cnt && this.readError == readError && this.closeError == closeError
      ensures this.readPanic == readPanic && this.closePanic == closePanic
    {
      this.cnt := cnt;
      this.readError := readError;
      this.closeError := closeError;
      this.readPanic := readPanic;
      this.closePanic := closePanic;
    }

    /** Read: fails with the configured error, else panics if configured to,
        else copies as much of the content as fits into p and keeps the rest;
        io.EOF when the content did not fill p. */
    method Read(p: array<bv8>) returns (n: nat, outcome: Outcome<E>)
      modifies this, p
      ensures readError.Err? ==> n == 0 && outcome == Failed(readError.err)
      ensures readError == Nil && readPanic ==> outcome == Panicked
      ensures outcome.Failed? || outcome == Panicked ==> cnt == old(cnt) && p[..] == old(p[..])
      ensures readError == Nil && !readPanic ==>
        var step := Consume(old(cnt), p.Length);
        && n == step.n && cnt == step.rest
        && outcome == (if step.eof then Eof else Ok)
        && p[..n] == old(cnt)[..n] && p[n..] == old(p[n..])
    {
      match readError {
        case Err(e) =>
          return 0, Failed(e);
        case Nil =>
      }
      if readPanic {
        return 0, Panicked;
      }
      n := Copy(p, cnt);
      if |cnt| >= p.Length {
        cnt := cnt[p.Length..];
        outcome := Ok;
      } else {
        cnt := [];
        outcome := Eof;
      }
    }

    /** Close: the configured error, else a panic if configured, else nil. */
    method Close() returns (outcome: Outcome<E>)
      ensures outcome == CloseOutcome(closeError, closePanic)
    {
      match closeError {
        case Err(e) =>
          return Failed(e);
        case Nil =>
      }
      if closePanic {
        return Panicked;
      }
      return Ok;
    }
  }

  /** Go's copy: writes the first min(len(dst), len(src)) bytes of src into dst
      and returns their number; the rest of dst is untouched. */
  method Copy(dst: array<bv8>, src: seq<bv8>) returns (n: nat)
    modifies dst
    ensures n == if |src| < dst.Length then |src| else dst.Length
    ensures dst[..n] == src[..n] && dst[n..] == old(dst[n..])
  {
    n := if |src| < dst.Length then |src| else dst.Length;
    var i := 0;
    while i < n
      invariant 0 <= i <= n
      invariant dst[..i] == src[..i] && dst[i..] == old(dst[i..])
    {
      dst[i] := src[i];
      i := i + 1;
    }
  }
}
