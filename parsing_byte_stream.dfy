/**
 * The tokenizer of the settings reader
 * (tools/settings-reader/ParsingByteStream.cpp): a line buffer over an
 * input byte stream with one push-back slot in front of each line,
 * byte-order-mark skipping, blank and comment skipping, and tokens that
 * are either bare words or quoted strings with escapes.
 *
 * The underlying stream is the sequence `input` of bytes not yet read.
 * Everything the tokenizer has still to deliver is Pending(): the
 * buffered bytes followed by the unread input. Each operation is proved
 * against a function of Pending().
 */
module ParsingStream {

  newtype byte = x: int | 0 <= x < 256

  /** C's EOF. */
  const EOF: int := -1
  /** Size of the line buffer; position 0 is the push-back slot. */
  const BufSize: int := 512

  const TAB: int := 9
  const LF: int := 10
  const CR: int := 13
  const SPACE: int := 32
  const DQUOTE: int := 34
  const HASH: int := 35
  const SQUOTE: int := 39
  const SEMI: int := 59
  const BACKSLASH: int := 92

  /** The UTF-8 byte-order mark EF BB BF. */
  function Bom(i: int): int {
    if i == 0 then 0xEF else if i == 1 then 0xBB else 0xBF
  }

  /** What get_spaces skips: space, tab, CR, LF, `#` (a comment) and `;`. */
  predicate IsBlank(c: int) {
    c == SPACE || c == TAB || c == CR || c == LF || c == HASH || c == SEMI
  }

  /** The separators get_spaces and get_token stop at when separators are not skipped. */
  predicate IsSep(c: int) {
    c == LF || c == CR || c == SEMI
  }

  /** What ends a bare token. */
  predicate IsTokenEnd(c: int) {
    c == SPACE || c == TAB || c == CR || c == SEMI || c == LF || c == HASH || c == EOF
  }

  predicate IsOctal(c: int) {
    '0' as int <= c <= '7' as int
  }

  /** A read character (or EOF) with what is left to read. */
  datatype Got = Got(c: int, rest: seq<byte>)

  /** A token with what is left to read. */
  datatype Token = Token(str: seq<byte>, rest: seq<byte>)

  /** The stream after pushing c back (EOF is not pushed). */
  function Prepend(c: int, p: seq<byte>): (q: seq<byte>)
    ensures 0 <= c < 256 ==> q == [c as byte] + p
    ensures !(0 <= c < 256) ==> q == p
  {
    if 0 <= c < 256 then [c as byte] + p else p
  }

  // ---------------------------------------------------------------- get

  /**
   * get: the next byte, skipping a UTF-8 byte-order mark; EOF when
   * nothing is left. Every character delivered uses up input.
   */
  function GetS(p: seq<byte>): (g: Got)
    ensures g.c == EOF ==> g.rest == []
    ensures p == [] ==> g.c == EOF
    ensures g.c != EOF ==> 0 <= g.c < 256 && |g.rest| < |p|
    ensures |g.rest| <= |p|
    ensures p != [] && p[0] != 0xEF ==> g == Got(p[0] as int, p[1..])
    ensures 0xEF !in p ==> g.c != 0xEF && 0xEF !in g.rest
  {
    if p == [] then Got(EOF, [])
    else if p[0] != 0xEF then Got(p[0] as int, p[1..])
    else BomS(p[1..])
  }

  /**
   * getbom after a leading EF byte: a whole mark is dropped (and a mark
   * right after it is looked at in turn); a partial one is delivered
   * byte by byte as it stands.
   */
  function BomS(q: seq<byte>): (g: Got)
    ensures g.c == EOF ==> g.rest == []
    ensures g.c != EOF ==> 0 <= g.c < 256 && |g.rest| <= |q|
    decreases |q|
  {
    if q == [] then Got(0xEF, [])
    else if q[0] != 0xBB then Got(0xEF, q)
    else if |q| == 1 then Got(0xEF, [0xBB])
    else if q[1] != 0xBF then Got(0xEF, q)
    else if |q| == 2 then Got(EOF, [])
    else if q[2] == 0xEF then BomS(q[3..])
    else Got(q[2] as int, q[3..])
  }

  /** A byte other than EF is delivered as it is. */
  lemma GetPlain(p: seq<byte>)
    requires p != [] && p[0] != 0xEF
    ensures GetS(p) == Got(p[0] as int, p[1..])
  {
  }

  /** A whole mark in front of a byte other than EF is skipped. */
  lemma GetSkipsBom(p: seq<byte>)
    requires |p| >= 4 && p[..3] == [0xEF, 0xBB, 0xBF] && p[3] != 0xEF
    ensures GetS(p) == Got(p[3] as int, p[4..])
  {
    assert p[1..][2] == p[3];
    assert p[1..][3..] == p[4..];
  }

  /** A partial mark is delivered unchanged: its first byte now, the others next. */
  lemma GetPartialBom(p: seq<byte>)
    requires |p| >= 2 && p[0] == 0xEF && (p[1] != 0xBB || (|p| >= 3 && p[2] != 0xBF) || |p| == 2)
    ensures GetS(p) == Got(0xEF, p[1..])
  {
  }

  /**
   * The state of getbom's first loop, read as the result still to come:
   * the candidate c stands at position i of the mark, what precedes it
   * having matched, and p is still to be read.
   */
  ghost function Resume(i: int, c: int, p: seq<byte>): Got
    requires c == EOF ==> p == []
  {
    if i == 0 then (if c == 0xEF then BomS(p) else Got(c, p))
    else if i == 1 then BomS(Prepend(c, p))
    else BomS([0xBB] + Prepend(c, p))
  }

  /** One step of getbom's first loop: the candidate matched, the next byte is read. */
  lemma ResumeStep(i: int, p: seq<byte>)
    requires 0 <= i < 3
    ensures p == [] ==> Resume(i, Bom(i), p) == Resume((i + 1) % 3, EOF, [])
    ensures p != [] ==> Resume(i, Bom(i), p) == Resume((i + 1) % 3, p[0] as int, p[1..])
  {
    if p != [] {
      assert [p[0]] + p[1..] == p;
    }
    if i == 2 {
      assert [0xBB as byte] + Prepend(Bom(2), p) == [0xBB, 0xBF] + p;
      ResumeWrap(p);
    }
  }

  /** A whole mark matched: the byte after it is delivered, or looked at as a new mark. */
  lemma ResumeWrap(p: seq<byte>)
    ensures p == [] ==> BomS([0xBB, 0xBF] + p) == Got(EOF, [])
    ensures p != [] && p[0] == 0xEF ==> BomS([0xBB, 0xBF] + p) == BomS(p[1..])
    ensures p != [] && p[0] != 0xEF ==> BomS([0xBB, 0xBF] + p) == Got(p[0] as int, p[1..])
  {
    var q := [0xBB as byte, 0xBF] + p;
    assert q[0] == 0xBB && q[1] == 0xBF && |q| == |p| + 2;
    if p != [] {
      assert q[2] == p[0];
      assert q[3..] == p[1..];
    }
  }

  /** getbom's first loop ends on a candidate that does not match. */
  lemma ResumeExit(i: int, c: int, p: seq<byte>)
    requires 0 <= i < 3 && c != Bom(i) && (c == EOF ==> p == []) && (c == EOF || 0 <= c < 256)
    ensures i == 0 ==> Resume(i, c, p) == Got(c, p)
    ensures i == 1 ==> Resume(i, c, p) == Got(0xEF, Prepend(c, p))
    ensures i == 2 ==> Resume(i, c, p) == Got(0xEF, [0xBB] + Prepend(c, p))
  {
    if i == 2 && c != EOF {
      var q := [0xBB as byte] + Prepend(c, p);
      assert q[0] == 0xBB && |q| >= 2 && q[1] as int == c;
    }
  }

  // ---------------------------------------------------------------- blanks

  /** The rest of a comment: read up to the end of the line or of the input. */
  function CommentFrom(g: Got): (h: Got)
    ensures h.c == EOF || h.c == LF || h.c == CR
    ensures (g.c == EOF || 0 <= g.c < 256) && (g.c == EOF ==> g.rest == []) ==> h.c == EOF ==> h.rest == []
    ensures 0xEF !in g.rest ==> 0xEF !in h.rest
    ensures |h.rest| <= |g.rest|
    decreases |g.rest|, g.c != EOF
  {
    if g.c != EOF && g.c != LF && g.c != CR then CommentFrom(GetS(g.rest)) else g
  }

  /** get_spaces from a character already read. */
  function SpacesFrom(c: int, p: seq<byte>, skip: bool): (g: Got)
    requires c == EOF ==> p == []
    requires c == EOF || 0 <= c < 256
    ensures !IsBlank(g.c) || (!skip && IsSep(g.c))
    ensures g.c == EOF || 0 <= g.c < 256
    ensures g.c == EOF ==> g.rest == []
    ensures |g.rest| + (if g.c == EOF then 0 else 1) <= |p| + (if c == EOF then 0 else 1)
    ensures 0xEF !in p ==> 0xEF !in g.rest
    decreases 2 * |p| + (if c == EOF then 0 else 1)
  {
    if !IsBlank(c) then Got(c, p)
    else
      var h := if c == HASH then CommentFrom(GetS(p)) else Got(c, p);
      if !skip && IsSep(h.c) then h
      else
        var g := GetS(h.rest);
        SpacesFrom(g.c, g.rest, skip)
  }

  /**
   * get_spaces: skip blanks and `#` comments; when separators are not
   * skipped, stop at CR, LF or `;` and deliver it.
   */
  function SpacesS(p: seq<byte>, skip: bool): (g: Got)
    ensures !IsBlank(g.c) || (!skip && IsSep(g.c))
    ensures g.c == EOF || 0 <= g.c < 256
    ensures g.c == EOF ==> g.rest == []
    ensures |g.rest| + (if g.c == EOF then 0 else 1) <= |p|
    ensures 0xEF !in p ==> 0xEF !in g.rest
  {
    var g := GetS(p);
    SpacesFrom(g.c, g.rest, skip)
  }

  // ---------------------------------------------------------------- tokens

  /** A bare token from its next character: collect up to a terminator, which is pushed back. */
  function UnquotedFrom(c: int, p: seq<byte>, str: seq<byte>): (t: Token)
    requires c == EOF ==> p == []
    requires 0 <= c < 256 || c == EOF
    ensures |t.rest| + |t.str| <= |p| + |str| + (if c == EOF then 0 else 1)
    decreases |p| + (if c == EOF then 0 else 1)
  {
    if IsTokenEnd(c) then Token(str, Prepend(c, p))
    else
      var g := GetS(p);
      UnquotedFrom(g.c, g.rest, str + [c as byte])
  }

  /** The escape letters t n r b f v a and the control characters they stand for. */
  function Translate(c: int): (d: int)
    ensures 0 <= c < 256 ==> 0 <= d < 256
  {
    if c == 't' as int then 9
    else if c == 'n' as int then 10
    else if c == 'r' as int then 13
    else if c == 'b' as int then 8
    else if c == 'f' as int then 12
    else if c == 'v' as int then 11
    else if c == 'a' as int then 7
    else c
  }

  /** The result of up to three octal digits: the value, the character after, and the rest. */
  datatype Octal = Octal(x: int, c: int, rest: seq<byte>)

  /** Up to three octal digits from c on, accumulated onto x (i digits read so far). */
  function OctalFrom(c: int, p: seq<byte>, x: int, i: nat): (o: Octal)
    requires c == EOF ==> p == []
    requires 0 <= c < 256 || c == EOF
    requires 0 <= x
    ensures o.c == EOF ==> o.rest == []
    ensures 0 <= o.c < 256 || o.c == EOF
    ensures o.x >= 0
    ensures |o.rest| + (if o.c == EOF then 0 else 1) <= |p| + (if c == EOF then 0 else 1)
    ensures i < 3 && IsOctal(c) ==> |o.rest| + (if o.c == EOF then 0 else 1) <= |p|
    decreases 3 - i
  {
    if i < 3 && IsOctal(c) then
      var g := GetS(p);
      OctalFrom(g.c, g.rest, x * 8 + c - '0' as int, i + 1)
    else Octal(x, c, p)
  }

  /** What an escape sequence adds to a quoted token. */
  datatype Escaped = Escaped(prefix: seq<byte>, c: int, rest: seq<byte>)

  /**
   * The character after a backslash, read from p: kept with its
   * backslash in compat mode (except `"`), up to three octal digits give
   * their value, t n r b f v a give control characters, anything else
   * stands for itself.
   */
  function EscapeS(p: seq<byte>, compat: bool): (e: Escaped)
    ensures e.c == EOF ==> e.rest == []
    ensures e.c >= EOF
    ensures |e.prefix| <= 1
    ensures |e.rest| + (if e.c == EOF then 0 else 1) <= |p|
  {
    var g := GetS(p);
    if compat && g.c != DQUOTE then Escaped([BACKSLASH as byte], g.c, g.rest)
    else if IsOctal(g.c) then
      var o := OctalFrom(g.c, g.rest, 0, 0);
      Escaped([], o.x, Prepend(o.c, o.rest))
    else Escaped([], Translate(g.c), g.rest)
  }

  /** The byte a character is stored as in the token (a char conversion). */
  function Low(c: int): (b: byte)
    ensures 0 <= c < 256 ==> b as int == c
  {
    (c % 256) as byte
  }

  /** A quoted token from its next character c: read up to the closing delimiter or the end. */
  function QuotedFrom(delim: int, c: int, p: seq<byte>, compat: bool, str: seq<byte>): (t: Token)
    requires c == EOF ==> p == []
    requires 0 <= c < 256 || c == EOF
    ensures |t.rest| + |t.str| <= |p| + |str| + (if c == EOF then 0 else 1)
    decreases |p| + (if c == EOF then 0 else 1)
  {
    if c == delim || c == EOF then Token(str, p)
    else
      var e := if c == BACKSLASH then EscapeS(p, compat) else Escaped([], c, p);
      var str' := str + e.prefix + (if e.c != EOF then [Low(e.c)] else []);
      var g := GetS(e.rest);
      QuotedFrom(delim, g.c, g.rest, compat, str')
  }

  /**
   * get_token: skip blanks; at the end the token is empty; a separator
   * that is not skipped is pushed back and the token is empty; a quote
   * starts a quoted token; anything else starts a bare one.
   */
  function TokenS(p: seq<byte>, skip: bool, compat: bool): (t: Token)
    ensures |t.rest| + |t.str| <= |p|
  {
    var g := SpacesS(p, skip);
    if g.c == EOF then Token([], g.rest)
    else if !skip && IsSep(g.c) then Token([], Prepend(g.c, g.rest))
    else if g.c != DQUOTE && g.c != SQUOTE then UnquotedFrom(g.c, g.rest, [])
    else
      var h := GetS(g.rest);
      QuotedFrom(g.c, h.c, h.rest, compat, [])
  }

  // ---------------------------------------------------------------- token properties

  /** Nothing left to read: the token is empty. */
  lemma TokenAtEnd(skip: bool, compat: bool)
    ensures TokenS([], skip, compat) == Token([], [])
  {
  }

  /** A bare token holds no terminator, and the terminator is the next thing read. */
  lemma {:induction false} UnquotedShape(c: int, p: seq<byte>, str: seq<byte>)
    requires c == EOF ==> p == []
    requires 0 <= c < 256 || c == EOF
    requires forall k :: 0 <= k < |str| ==> !IsTokenEnd(str[k] as int)
    ensures var t := UnquotedFrom(c, p, str);
      str <= t.str &&
      (forall k :: 0 <= k < |t.str| ==> !IsTokenEnd(t.str[k] as int)) &&
      (t.rest == [] || IsTokenEnd(t.rest[0] as int))
    decreases |p| + (if c == EOF then 0 else 1)
  {
    if !IsTokenEnd(c) {
      var g := GetS(p);
      UnquotedShape(g.c, g.rest, str + [c as byte]);
    }
  }

  /** Over input without EF bytes, a bare token is exactly the bytes up to its terminator. */
  lemma {:induction false} UnquotedPlain(p: seq<byte>, n: nat)
    requires n < |p| && (forall k :: 0 <= k < n ==> !IsTokenEnd(p[k] as int) && p[k] != 0xEF)
    requires IsTokenEnd(p[n] as int) && p[n] != 0xEF
    ensures UnquotedFrom(p[0] as int, p[1..], []) == Token(p[..n], p[n..])
  {
    UnquotedPlainFrom(p, 0, n);
  }

  lemma {:induction false} UnquotedPlainFrom(p: seq<byte>, j: nat, n: nat)
    requires j <= n < |p| && (forall k :: 0 <= k < n ==> !IsTokenEnd(p[k] as int) && p[k] != 0xEF)
    requires IsTokenEnd(p[n] as int) && p[n] != 0xEF
    ensures UnquotedFrom(p[j] as int, p[j + 1..], p[..j]) == Token(p[..n], p[n..])
    decreases n - j
  {
    if j < n {
      GetPlain(p[j + 1..]);
      assert p[j + 1..][0] == p[j + 1];
      assert p[j + 1..][1..] == p[j + 2..];
      assert p[..j] + [p[j]] == p[..j + 1];
      UnquotedPlainFrom(p, j + 1, n);
    } else {
      assert [p[n]] + p[n + 1..] == p[n..];
    }
  }

  /** A separator that is not skipped gives an empty token and stays to be read. */
  lemma TokenSeparator(p: seq<byte>, compat: bool)
    requires p != [] && IsSep(p[0] as int)
    ensures TokenS(p, false, compat) == Token([], p)
  {
    assert [p[0]] + p[1..] == p;
  }

  /** Escapes: `\t` and friends become control characters, `\q` stands for q. */
  lemma EscapeLetters(q: byte, rest: seq<byte>)
    requires q != 0xEF && !IsOctal(q as int)
    ensures EscapeS([q] + rest, false) == Escaped([], Translate(q as int), rest)
    ensures q as int !in {'t' as int, 'n' as int, 'r' as int, 'b' as int, 'f' as int, 'v' as int, 'a' as int} ==>
      Translate(q as int) == q as int
  {
    assert ([q] + rest)[1..] == rest;
  }

  /** In compat mode a backslash is kept, except in front of a double quote. */
  lemma EscapeCompat(q: byte, rest: seq<byte>)
    requires q != 0xEF
    ensures q as int != DQUOTE ==> EscapeS([q] + rest, true) == Escaped([BACKSLASH as byte], q as int, rest)
    ensures q as int == DQUOTE ==> EscapeS([q] + rest, true) == Escaped([], DQUOTE, rest)
  {
    assert ([q] + rest)[1..] == rest;
  }

  /** Three octal digits give their value; the character after them is pushed back. */
  lemma EscapeOctal(d0: byte, d1: byte, d2: byte, rest: seq<byte>)
    requires IsOctal(d0 as int) && IsOctal(d1 as int) && IsOctal(d2 as int)
    requires rest == [] || rest[0] != 0xEF
    ensures EscapeS([d0, d1, d2] + rest, false) ==
      Escaped([], ((d0 as int - 48) * 8 + (d1 as int - 48)) * 8 + (d2 as int - 48), rest)
  {
    var p := [d0, d1, d2] + rest;
    assert p[1..] == [d1, d2] + rest;
    assert p[1..][1..] == [d2] + rest;
    assert p[1..][1..][1..] == rest;
    if rest != [] {
      assert [rest[0]] + rest[1..] == rest;
    }
  }

  /** A quoted token stops at its closing delimiter, which is not part of it. */
  lemma QuotedClosing(delim: int, p: seq<byte>, compat: bool, str: seq<byte>)
    requires 0 <= delim < 256
    ensures QuotedFrom(delim, delim, p, compat, str) == Token(str, p)
  {
  }

  // ---------------------------------------------------------------- the stream

  class ParsingByteStream {
    /** The bytes of the underlying stream not yet read into the buffer. */
    var input: seq<byte>
    const buffer: array<byte>
    var bufpos: int
    var bufend: int
    var goteof: bool

    ghost predicate Valid()
      reads this
    {
      buffer.Length == BufSize && 0 <= bufpos <= bufend <= BufSize && (goteof ==> input == [])
    }

    /** Everything still to be delivered: the buffered bytes, then the unread input. */
    ghost function Pending(): seq<byte>
      reads this, buffer
      requires Valid()
    {
      buffer[bufpos..bufend] + input
    }

    constructor (data: seq<byte>)
      ensures Valid() && Pending() == data && fresh(buffer)
    {
      input := data;
      buffer := new byte[BufSize];
      bufpos, bufend := 1, 1;
      goteof := false;
    }

    /**
     * eof: with the buffer used up, read the next line (up to CR or LF,
     * or until the buffer is full) into it, after the push-back slot.
     */
    method Eof() returns (r: bool)
      requires Valid()
      modifies this, buffer
      ensures Valid() && Pending() == old(Pending())
      ensures r <==> Pending() == []
      ensures r ==> bufpos == bufend
      ensures !r ==> bufpos < bufend
      ensures bufpos == old(bufpos) || bufpos == 1
    {
      if bufpos < bufend {
        return false;
      }
      if goteof {
        return true;
      }
      ghost var p0 := input;
      bufend, bufpos := 1, 1;
      while input != []
        invariant 1 <= bufend < BufSize && bufpos == 1
        invariant !goteof
        invariant buffer[1..bufend] + input == p0
        decreases |input|
      {
        buffer[bufend] := input[0];
        input := input[1..];
        bufend := bufend + 1;
        if !(bufend < BufSize) {
          break;
        }
        if buffer[bufend - 1] as int == CR || buffer[bufend - 1] as int == LF {
          break;
        }
      }
      if bufend == bufpos {
        goteof := true;
      }
      r := goteof;
    }

    /**
     * read: up to size bytes; a request of at least a buffer's length
     * with the buffer used up goes straight to the underlying stream,
     * otherwise no more than the buffered line is delivered.
     */
    method Read(size: nat) returns (out: seq<byte>)
      requires Valid()
      modifies this, buffer
      ensures Valid()
      ensures |out| <= size
      ensures old(Pending()) == out + Pending()
      ensures size > 0 && old(Pending()) != [] ==> out != []
      ensures old(bufpos) < old(bufend) ==> |out| <= old(bufend) - old(bufpos)
    {
      if size < 1 {
        return [];
      }
      if bufend == bufpos {
        if size >= BufSize {
          var n := if size < |input| then size else |input|;
          out := input[..n];
          input := input[n..];
          return;
        }
        var end := Eof();
        if end {
          return [];
        }
      }
      out := TakeBuffered(size);
    }

    /** The buffered part of read: at most size bytes of the current line. */
    method TakeBuffered(size: nat) returns (out: seq<byte>)
      requires Valid() && bufpos < bufend && size > 0
      modifies this
      ensures Valid() && input == old(input) && bufend == old(bufend)
      ensures 0 < |out| <= size && |out| <= old(bufend) - old(bufpos)
      ensures old(Pending()) == out + Pending()
    {
      var n := size;
      if bufpos + n > bufend {
        n := bufend - bufpos;
      }
      out := buffer[bufpos..bufpos + n];
      assert buffer[bufpos..bufend] == out + buffer[bufpos + n..bufend];
      bufpos := bufpos + n;
    }

    /** The `bufpos < bufend || !eof()` step: the next buffered byte, if there is one. */
    method Fetch() returns (got: bool, b: byte)
      requires Valid()
      modifies this, buffer
      ensures Valid()
      ensures got <==> old(Pending()) != []
      ensures got ==> b == old(Pending())[0] && Pending() == old(Pending())[1..]
      ensures !got ==> Pending() == []
      ensures got ==> bufpos >= 1 && (old(bufpos) >= 1 ==> bufpos >= 2)
      ensures !got ==> bufpos == old(bufpos) || bufpos == 1
    {
      b := 0;
      got := bufpos < bufend;
      if !got {
        var end := Eof();
        got := !end;
      }
      if got {
        ghost var before := Pending();
        b := buffer[bufpos];
        assert before == [b] + (buffer[bufpos + 1..bufend] + input);
        bufpos := bufpos + 1;
      }
    }

    /** unget: push c back in front of the buffer when there is room and c is not EOF. */
    method Unget(c: int) returns (r: int)
      requires Valid()
      modifies this, buffer
      ensures Valid()
      ensures old(bufpos) > 0 && c != EOF ==> r == c % 256 && Pending() == [Low(c)] + old(Pending()) && bufpos == old(bufpos) - 1
      ensures !(old(bufpos) > 0 && c != EOF) ==> r == EOF && Pending() == old(Pending()) && bufpos == old(bufpos)
    {
      if bufpos > 0 && c != EOF {
        bufpos := bufpos - 1;
        buffer[bufpos] := Low(c);
        r := c % 256;
        assert buffer[bufpos..bufend] == [Low(c)] + old(buffer[bufpos..bufend]);
      } else {
        r := EOF;
      }
    }

    /**
     * getbom after a leading EF, with the end of the input read as EOF:
     * see BomS.
     */
    method Getbom(c0: int) returns (c: int)
      requires Valid() && c0 == 0xEF
      modifies this, buffer
      ensures Valid()
      ensures Got(c, Pending()) == BomS(old(Pending()))
      ensures c != EOF && c != 0xEF ==> bufpos >= 1
    {
      ghost var q := Pending();
      c := c0;
      var i := 0;
      while c == Bom(i)
        invariant Valid() && 0 <= i < 3
        invariant c == EOF ==> Pending() == []
        invariant -1 <= c < 256
        invariant Resume(i, c, Pending()) == BomS(q)
        invariant i == 1 && c != EOF ==> bufpos >= 1
        invariant i == 2 ==> bufpos >= 1 && (c != EOF ==> bufpos >= 2)
        invariant i == 0 && c != EOF && c != 0xEF ==> bufpos >= 1
        decreases |Pending()| + (if c == EOF then 0 else 1)
      {
        i := i + 1;
        if i >= 3 {
          i := 0;
        }
        ghost var pb := Pending();
        ResumeStep(if i == 0 then 2 else i - 1, pb);
        var got, b := Fetch();
        if got {
          c := b as int;
        } else {
          c := EOF;
        }
      }
      ResumeExit(i, c, Pending());
      i := i + 1;
      while i - 1 > 0
        invariant Valid() && 0 <= i - 1 <= 2
        invariant c == EOF ==> Pending() == []
        invariant -1 <= c < 256
        invariant i - 1 == 0 ==> Got(c, Pending()) == BomS(q)
        invariant i - 1 == 1 ==> Got(0xEF, Prepend(c, Pending())) == BomS(q) && (c != EOF ==> bufpos >= 1)
        invariant i - 1 == 2 ==> Got(0xEF, [0xBB] + Prepend(c, Pending())) == BomS(q) && bufpos >= 1 && (c != EOF ==> bufpos >= 2)
        invariant i - 1 == 0 && c != EOF && c != 0xEF ==> bufpos >= 1
      {
        i := i - 1;
        var _ := Unget(c);
        c := Bom(i - 1);
      }
    }

    /**
     * getbom exactly as written: when the input ends inside a mark, the
     * character variable keeps the byte read last instead of becoming EOF.
     */
    method GetbomAsWritten(c0: int) returns (c: int)
      requires Valid() && c0 == 0xEF && bufpos >= 1
      modifies this, buffer
      ensures Valid()
      ensures old(Pending()) == [] ==> c == 0xEF && Pending() == [0xEF]
      ensures old(Pending()) == [0xBB, 0xBF] ==> c == 0xBF && Pending() == []
    {
      ghost var q := Pending();
      c := c0;
      var i := 0;
      while c == Bom(i)
        invariant Valid() && 0 <= i < 3 && bufpos >= 1
        invariant q == [] ==> Pending() == [] && c == 0xEF && (i == 0 || (i == 1 && bufpos >= 1))
        invariant q == [0xBB, 0xBF] ==>
          (i == 0 && c == 0xEF && Pending() == q) || (i == 1 && c == 0xBB && Pending() == [0xBF]) ||
          (i == 2 && c == 0xBF && Pending() == []) || (i == 0 && c == 0xBF && Pending() == [])
        decreases |Pending()|, if c == Bom(i) then 1 else 0
      {
        i := i + 1;
        if i >= 3 {
          i := 0;
        }
        var got, b := Fetch();
        if got {
          c := b as int;
        }
      }
      i := i + 1;
      while i - 1 > 0
        invariant Valid() && 0 <= i - 1 <= 2
        invariant q == [] ==> (i - 1 == 1 && c == 0xEF && Pending() == [] && bufpos >= 1) || (i - 1 == 0 && c == 0xEF && Pending() == [0xEF])
        invariant q == [0xBB, 0xBF] ==> i - 1 == 0 && c == 0xBF && Pending() == []
      {
        i := i - 1;
        var _ := Unget(c);
        c := Bom(i - 1);
      }
    }

    /** get: the next character, a byte-order mark skipped (see GetS). */
    method Get() returns (c: int)
      requires Valid()
      modifies this, buffer
      ensures Valid()
      ensures Got(c, Pending()) == GetS(old(Pending()))
      ensures c != EOF && c != 0xEF ==> bufpos >= 1
    {
      c := EOF;
      var got, b := Fetch();
      if got {
        c := b as int;
      }
      if c == Bom(0) {
        c := Getbom(c);
      }
    }

    /** get_spaces (see SpacesS). */
    method GetSpaces(skip: bool) returns (c: int)
      requires Valid()
      modifies this, buffer
      ensures Valid()
      ensures Got(c, Pending()) == SpacesS(old(Pending()), skip)
      ensures c != EOF && c != 0xEF ==> bufpos >= 1
    {
      ghost var p0 := Pending();
      c := Get();
      while IsBlank(c)
        invariant Valid()
        invariant c == EOF ==> Pending() == []
        invariant -1 <= c < 256
        invariant SpacesFrom(c, Pending(), skip) == SpacesS(p0, skip)
        invariant c != EOF && c != 0xEF ==> bufpos >= 1
        decreases 2 * |Pending()| + (if c == EOF then 0 else 1)
      {
        if c == HASH {
          c := SkipComment();
        }
        if !skip && IsSep(c) {
          break;
        }
        c := Get();
      }
    }

    /** The rest of a `#` comment, up to the end of the line (see CommentFrom). */
    method SkipComment() returns (c: int)
      requires Valid()
      modifies this, buffer
      ensures Valid()
      ensures Got(c, Pending()) == CommentFrom(GetS(old(Pending())))
      ensures c != EOF && c != 0xEF ==> bufpos >= 1
    {
      ghost var p1 := Pending();
      c := Get();
      while c != EOF && c != LF && c != CR
        invariant Valid()
        invariant c == EOF ==> Pending() == []
        invariant -1 <= c < 256
        invariant CommentFrom(Got(c, Pending())) == CommentFrom(GetS(p1))
        invariant c != EOF && c != 0xEF ==> bufpos >= 1
        decreases |Pending()|, c != EOF
      {
        c := Get();
      }
    }

    /**
     * get_token (see TokenS). Every token byte uses up at least one byte
     * of input; over input without EF bytes, where every push-back finds
     * room, the token is exactly TokenS.
     */
    method GetToken(skip: bool, compat: bool) returns (str: seq<byte>)
      requires Valid()
      modifies this, buffer
      ensures Valid()
      ensures |Pending()| + |str| <= |old(Pending())|
      ensures old(Pending()) == [] ==> str == []
      ensures 0xEF !in old(Pending()) ==> Token(str, Pending()) == TokenS(old(Pending()), skip, compat)
    {
      ghost var p0 := Pending();
      str := [];
      var c := GetSpaces(skip);
      ghost var g := SpacesS(p0, skip);
      assert c == g.c && Pending() == g.rest;
      if c == EOF {
        return;
      }
      if !skip && IsSep(c) {
        var _ := Unget(c);
        return;
      }
      if c != DQUOTE && c != SQUOTE {
        str := BareToken(c);
        assert Token(str, Pending()) == UnquotedFrom(g.c, g.rest, []);
      } else {
        str := QuotedToken(c, compat);
        assert 0xEF !in p0 ==> Token(str, Pending()) == (var h := GetS(g.rest); QuotedFrom(g.c, h.c, h.rest, compat, []));
      }
    }

    /** The bare-token branch of get_token, from its first character. */
    method BareToken(c0: int) returns (str: seq<byte>)
      requires Valid() && 0 <= c0 < 256 && !IsTokenEnd(c0)
      modifies this, buffer
      ensures Valid()
      ensures |Pending()| + |str| <= |old(Pending())| + 1
      ensures Token(str, Pending()) == UnquotedFrom(c0, old(Pending()), [])
    {
      ghost var p0 := Pending();
      str := [];
      var c := c0;
      while !IsTokenEnd(c)
        invariant Valid()
        invariant c == EOF ==> Pending() == []
        invariant -1 <= c < 256
        invariant UnquotedFrom(c, Pending(), str) == UnquotedFrom(c0, p0, [])
        invariant IsTokenEnd(c) && c != EOF ==> bufpos >= 1
        invariant |Pending()| + |str| + (if c == EOF then 0 else 1) <= |p0| + 1
        decreases |Pending()| + (if c == EOF then 0 else 1)
      {
        str := str + [c as byte];
        c := Get();
      }
      var _ := Unget(c);
    }

    /** The quoted branch of get_token, after the opening delimiter. */
    method QuotedToken(delim: int, compat: bool) returns (str: seq<byte>)
      requires Valid()
      modifies this, buffer
      ensures Valid()
      ensures |Pending()| + |str| <= |old(Pending())|
      ensures 0xEF !in old(Pending()) ==>
        (var h := GetS(old(Pending())); Token(str, Pending()) == QuotedFrom(delim, h.c, h.rest, compat, []))
    {
      ghost var p0 := Pending();
      ghost var h := GetS(p0);
      str := [];
      var c := Get();
      while c != delim && c != EOF
        invariant Valid()
        invariant c == EOF ==> Pending() == []
        invariant -1 <= c < 256
        invariant |Pending()| + |str| + (if c == EOF then 0 else 1) <= |p0|
        invariant 0xEF !in p0 ==> 0xEF !in Pending() && c != 0xEF
        invariant 0xEF !in p0 ==> QuotedFrom(delim, c, Pending(), compat, str) == QuotedFrom(delim, h.c, h.rest, compat, [])
        decreases |Pending()| + (if c == EOF then 0 else 1)
      {
        ghost var p1 := Pending();
        ghost var str1 := str;
        ghost var e := if c == BACKSLASH then EscapeS(p1, compat) else Escaped([], c, p1);
        if c == BACKSLASH {
          c := Get();
          if compat && c != DQUOTE {
            str := str + [BACKSLASH as byte];
          } else if IsOctal(c) {
            var x := OctalDigits(c);
            c := x;
          } else {
            c := Translate(c);
          }
        }
        assert 0xEF !in p0 ==> str == str1 + e.prefix && c == e.c && Pending() == e.rest;
        if c != EOF {
          str := str + [Low(c)];
        }
        c := Get();
      }
    }

    /** The octal loop of an escape: up to three digits, the character after them pushed back. */
    method OctalDigits(c0: int) returns (x: int)
      requires Valid() && IsOctal(c0) && bufpos >= 1
      modifies this, buffer
      ensures Valid()
      ensures x >= 0
      ensures |Pending()| <= |old(Pending())|
      ensures 0xEF !in old(Pending()) ==> 0xEF !in Pending()
      ensures 0xEF !in old(Pending()) ==>
        (var o := OctalFrom(c0, old(Pending()), 0, 0); x == o.x && Pending() == Prepend(o.c, o.rest))
    {
      ghost var p0 := Pending();
      var c := c0;
      x := 0;
      var i := 0;
      while i < 3 && IsOctal(c)
        invariant Valid() && 0 <= i <= 3 && x >= 0
        invariant i == 0 ==> c == c0 && Pending() == p0
        invariant c == EOF ==> Pending() == []
        invariant -1 <= c < 256
        invariant c != EOF && c != 0xEF ==> bufpos >= 1
        invariant i > 0 ==> |Pending()| + (if c == EOF then 0 else 1) <= |p0|
        invariant 0xEF !in p0 ==> 0xEF !in Pending()
        invariant 0xEF !in p0 ==> c != 0xEF
        invariant 0xEF !in p0 ==> OctalFrom(c, Pending(), x, i) == OctalFrom(c0, p0, 0, 0)
      {
        x := x * 8 + c - '0' as int;
        c := Get();
        i := i + 1;
      }
      assert 0xEF !in p0 ==> OctalFrom(c0, p0, 0, 0) == Octal(x, c, Pending());
      var _ := Unget(c);
    }
  }
}
