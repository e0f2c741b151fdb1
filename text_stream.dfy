/**
  A model of the `std::ifstream` reads the loaders use: `>>` into a string,
  an int or a double, and `std::getline`.

  The file is a sequence of lines, each an already-split sequence of tokens.
  A token carries its text and what the C++ number extraction makes of it
  (`asInt`, `asReal`; `None` when the text is not a number of that kind), so
  text-to-number conversion itself is not modelled.

  The stream keeps what is left to read (`rest[0]` is the unread part of the
  current line) and its good/fail state. As in C++11:
   - once the stream has failed, every read is a no-op and leaves its target
     variable unchanged;
   - a read that finds no token before the end of the file fails and leaves
     the target unchanged;
   - a number read that finds a token of the wrong kind fails and stores 0.
 */
module TextStream {
  import opened Wrappers

  datatype Token = Token(text: string, asInt: Option<int>, asReal: Option<real>)

  type Line = seq<Token>

  datatype Stream = Stream(rest: seq<Line>, ok: bool)

  /** The result of one extraction: the stream after it and the target variable's new value. */
  datatype Read<T> = Read(stream: Stream, value: T)

  /** A measure of what is left to read: every token and every line end counts one. */
  function Size(rest: seq<Line>): nat
  {
    if rest == [] then 0 else |rest[0]| + 1 + Size(rest[1..])
  }

  /** A freshly opened file. */
  function Open(lines: seq<Line>): Stream
  {
    Stream(lines, true)
  }

  /** Skips line ends and takes the next token, if there is one. */
  function NextToken(rest: seq<Line>): Option<(Token, seq<Line>)>
  {
    if rest == [] then None
    else if rest[0] == [] then
      NextToken(rest[1..])
    else
      Some((rest[0][0], [rest[0][1..]] + rest[1..]))
  }

  /** `stream >> tok` into a string variable whose value before the read is `prev`. */
  function ReadToken(s: Stream, prev: Token): (r: Read<Token>)
    ensures !r.stream.ok ==> r.value == prev
  {
    if !s.ok then Read(s, prev)
    else match NextToken(s.rest)
      case None => Read(Stream([], false), prev)
      case Some((t, after)) => Read(Stream(after, true), t)
  }

  /** `stream >> text` where only the text of the token matters. */
  function ReadText(s: Stream, prev: string): Read<string>
  {
    var t := ReadToken(s, Token(prev, None, None));
    Read(t.stream, t.value.text)
  }

  /** `stream >> n` into an int variable whose value before the read is `prev`. */
  function ReadInt(s: Stream, prev: int): Read<int>
  {
    if !s.ok then Read(s, prev)
    else match NextToken(s.rest)
      case None => Read(Stream([], false), prev)
      case Some((t, after)) =>
        if t.asInt.Some? then Read(Stream(after, true), t.asInt.value)
        else Read(Stream([], false), 0)
  }

  /** `stream >> x` into a double variable whose value before the read is `prev`. */
  function ReadReal(s: Stream, prev: real): Read<real>
  {
    if !s.ok then Read(s, prev)
    else match NextToken(s.rest)
      case None => Read(Stream([], false), prev)
      case Some((t, after)) =>
        if t.asReal.Some? then Read(Stream(after, true), t.asReal.value)
        else Read(Stream([], false), 0.0)
  }

  /** `std::getline(stream, junk)`: drops the rest of the current line. */
  function GetLine(s: Stream): Stream
  {
    if !s.ok then s
    else if s.rest == [] then Stream([], false)
    else Stream(s.rest[1..], true)
  }

  /** `t` has no more left to read than `s`, and less when the read that led to it succeeded. */
  predicate Advanced(s: Stream, t: Stream)
  {
    Size(t.rest) <= Size(s.rest) && (t.ok ==> s.ok && Size(t.rest) < Size(s.rest))
  }

  /** Taking a token consumes it. */
  lemma {:induction false} NextTokenShrinks(rest: seq<Line>)
    ensures NextToken(rest).Some? ==> Size(NextToken(rest).value.1) < Size(rest)
  {
    if rest != [] {
      if rest[0] == [] {
        NextTokenShrinks(rest[1..]);
      } else {
        var after := [rest[0][1..]] + rest[1..];
        assert after[1..] == rest[1..];
      }
    }
  }

  /** Every read moves the stream forward, and one that succeeds consumes a token. */
  lemma ReadsAdvance(s: Stream)
    ensures forall prev :: Advanced(s, ReadToken(s, prev).stream)
    ensures forall prev :: Advanced(s, ReadText(s, prev).stream)
    ensures forall prev :: Advanced(s, ReadInt(s, prev).stream)
    ensures forall prev :: Advanced(s, ReadReal(s, prev).stream)
    ensures Size(GetLine(s).rest) <= Size(s.rest)
  {
    NextTokenShrinks(s.rest);
  }

  /** Reading a token at the head of the current line takes exactly that token. */
  lemma ReadTokenAtHead(t: Token, line: Line, more: seq<Line>, prev: Token)
    ensures ReadToken(Stream([[t] + line] + more, true), prev)
         == Read(Stream([line] + more, true), t)
  {
    var rest := [[t] + line] + more;
    assert rest[0][1..] == line && rest[1..] == more;
  }

  /** The next token of a line that starts with `t` is `t`. */
  lemma NextTokenAtHead(t: Token, line: Line, more: seq<Line>)
    ensures NextToken([[t] + line] + more) == Some((t, [line] + more))
  {
    var rest := [[t] + line] + more;
    assert rest[0][1..] == line && rest[1..] == more;
  }

  /** The readers at a token that heads the current line, when the token has the kind read. */
  lemma ReadsAtHead(t: Token, line: Line, more: seq<Line>)
    ensures forall prev :: ReadText(Stream([[t] + line] + more, true), prev) == Read(Stream([line] + more, true), t.text)
    ensures t.asInt.Some? ==> forall prev :: ReadInt(Stream([[t] + line] + more, true), prev) == Read(Stream([line] + more, true), t.asInt.value)
    ensures t.asReal.Some? ==> forall prev :: ReadReal(Stream([[t] + line] + more, true), prev) == Read(Stream([line] + more, true), t.asReal.value)
  {
    NextTokenAtHead(t, line, more);
  }

  /** Every read looks past an exhausted current line to the next line. */
  lemma SkipsExhaustedLine(more: seq<Line>)
    ensures NextToken([[]] + more) == NextToken(more)
  {
    assert ([[]] + more)[1..] == more;
  }
}
