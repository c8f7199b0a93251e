/**
 * Field tokenizer and line counter of the loaders (retrieveData and
 * readLines), over the bytes of a file instead of a file descriptor.
 */
module Tokenizer {
  import opened Records

  const TAB: byte := 9
  const NL: byte := 10
  const NUL: byte := 0

  /** Size of the buffer retrieveData allocates; a field plus its terminating NUL must fit. */
  const BUFFER_SIZE: nat := 255

  predicate IsSep(b: byte) { b == TAB || b == NL }

  /** Whether appending `b` with a one-byte strncat changes the field: not a separator, not NUL. */
  predicate Kept(b: byte) { !IsSep(b) && b != NUL }

  /** The bytes of `s` that end up in the field buffer, in order. */
  function KeptBytes(s: seq<byte>): (t: seq<byte>)
    ensures |t| <= |s|
  {
    if s == [] then []
    else KeptBytes(s[..|s| - 1]) + (if Kept(s[|s| - 1]) then [s[|s| - 1]] else [])
  }

  /** The first separator at or after position `p`, or `|s|` when there is none. */
  function SepFrom(s: seq<byte>, p: nat): (j: nat)
    requires p <= |s|
    ensures p <= j <= |s| && (j < |s| ==> IsSep(s[j]))
    ensures forall k :: p <= k < j ==> !IsSep(s[k])
    decreases |s| - p
  {
    if p == |s| then p else if IsSep(s[p]) then p else SepFrom(s, p + 1)
  }

  /**
   * The read stops: a separator follows the first byte, or the input is a
   * single separator byte. A read at the end of the file leaves the byte
   * held unchanged, so the loop ends there only when that byte is a separator.
   */
  predicate HasTerminator(s: seq<byte>) {
    |s| >= 1 && (SepFrom(s, 1) < |s| || (|s| == 1 && IsSep(s[0])))
  }

  /**
   * The position of the separator that ends the field at the head of `s`:
   * the first tab or newline after the first byte, or the first byte itself
   * when it is a lone separator at the end of the input.
   */
  function Terminator(s: seq<byte>): (j: nat)
    requires HasTerminator(s)
    ensures j < |s| && IsSep(s[j])
    ensures forall k :: 1 <= k < j ==> !IsSep(s[k])
    ensures j == 0 <==> |s| == 1
  {
    if SepFrom(s, 1) < |s| then SepFrom(s, 1) else 0
  }

  /** The field at the head of `s`: no separator, no NUL, no longer than the bytes before its terminator. */
  function Token(s: seq<byte>): (t: Field)
    requires HasTerminator(s)
    ensures |t| <= Terminator(s)
    ensures forall k :: 0 <= k < |t| ==> Kept(t[k])
  {
    KeptBytesClean(s[..Terminator(s)]);
    KeptBytes(s[..Terminator(s)])
  }

  /** What is left of `s` once the field and its terminator are consumed: a proper suffix of `s`. */
  function Rest(s: seq<byte>): (r: seq<byte>)
    requires HasTerminator(s)
    ensures |r| < |s| && r == s[|s| - |r|..]
  {
    s[Terminator(s) + 1..]
  }

  /**
   * retrieveData: reads one byte, then keeps appending the byte held and
   * reading the next one until the byte held is a separator. The first byte
   * is dropped when it is a separator; the terminating separator is
   * consumed. A read at the end of the file leaves the byte held unchanged.
   * Input on which the loop never ends, and a field of 255 bytes or more,
   * which overflows its buffer, are excluded.
   */
  method RetrieveData(input: seq<byte>) returns (token: Field, rest: seq<byte>)
    requires HasTerminator(input)
    requires |Token(input)| < BUFFER_SIZE
    ensures token == Token(input) && rest == Rest(input)
  {
    token := [];
    var byteData := input[0];
    var pos := 1;
    ghost var j := SepFrom(input, 1);
    while true
      invariant 1 <= pos <= j
      invariant byteData == input[pos - 1]
      invariant token == KeptBytes(input[..pos - 1])
      decreases j - pos
    {
      if !IsSep(byteData) && byteData != NUL {
        token := token + [byteData];
      }
      assert input[..pos][..pos - 1] == input[..pos - 1];
      if pos < |input| {
        byteData := input[pos];
        pos := pos + 1;
      }
      if IsSep(byteData) {
        break;
      }
    }
    rest := input[pos..];
  }

  /** Every byte of a field is kept: no separator, no NUL. */
  lemma {:induction false} KeptBytesClean(s: seq<byte>)
    ensures forall k :: 0 <= k < |KeptBytes(s)| ==> Kept(KeptBytes(s)[k])
  {
    if s != [] {
      KeptBytesClean(s[..|s| - 1]);
    }
  }

  /** Bytes that are all kept pass through unchanged. */
  lemma {:induction false} KeptBytesIdentity(t: seq<byte>)
    requires forall k :: 0 <= k < |t| ==> Kept(t[k])
    ensures KeptBytes(t) == t
  {
    if t != [] {
      KeptBytesIdentity(t[..|t| - 1]);
    }
  }

  /**
   * What a call consumes: a prefix of `c` bytes that ends in a separator,
   * in which only the first byte may be a separator besides the last, and
   * the field is drawn from the bytes before that last separator. A single
   * byte is consumed only when it is a lone separator ending the input.
   */
  lemma Consumption(s: seq<byte>)
    requires HasTerminator(s)
    ensures var c := |s| - |Rest(s)|;
      1 <= c <= |s| && (c == 1 <==> |s| == 1)
      && s == s[..c] + Rest(s) && IsSep(s[c - 1])
      && (forall k :: 1 <= k < c - 1 ==> !IsSep(s[k]))
      && Token(s) == KeptBytes(s[..c - 1])
  {
  }

  /** A lone separator at the end of the input reads as an empty field and consumes the input. */
  lemma LoneSeparator(b: byte)
    requires IsSep(b)
    ensures HasTerminator([b]) && Token([b]) == [] && Rest([b]) == []
  {
  }

  /** A clean, non-empty field followed by a separator is read back with the rest intact. */
  lemma TokenRoundTrip(t: Field, sep: byte, rest: seq<byte>)
    requires |t| >= 1 && forall k :: 0 <= k < |t| ==> Kept(t[k])
    requires IsSep(sep)
    ensures HasTerminator(t + [sep] + rest)
    ensures Token(t + [sep] + rest) == t && Rest(t + [sep] + rest) == rest
  {
    var s := t + [sep] + rest;
    assert IsSep(s[|t|]);
    assert forall k :: 1 <= k < |t| ==> !IsSep(s[k]) by {
      forall k | 1 <= k < |t| ensures !IsSep(s[k]) {
        assert s[k] == t[k];
      }
    }
    assert Terminator(s) == |t|;
    assert s[..|t|] == t;
    KeptBytesIdentity(t);
    assert s[|t| + 1..] == rest;
  }

  /**
   * All fields of a file, read one after another while the read stops:
   * each consumes at least one byte, and none holds a separator or NUL.
   */
  function Fields(s: seq<byte>): (fs: seq<Field>)
    ensures |fs| <= |s|
    ensures forall i, k :: 0 <= i < |fs| && 0 <= k < |fs[i]| ==> Kept(fs[i][k])
    decreases |s|
  {
    if HasTerminator(s) then [Token(s)] + Fields(Rest(s)) else []
  }

  /** Fields written one after another, each followed by its own separator. */
  function Join(ts: seq<Field>, seps: seq<byte>): seq<byte>
    requires |seps| == |ts|
  {
    if ts == [] then [] else ts[0] + [seps[0]] + Join(ts[1..], seps[1..])
  }

  /** Splitting a file written from clean, non-empty fields gives those fields back. */
  lemma {:induction false} FieldsOfJoin(ts: seq<Field>, seps: seq<byte>)
    requires |seps| == |ts|
    requires forall i :: 0 <= i < |ts| ==> |ts[i]| >= 1
    requires forall i, k :: 0 <= i < |ts| && 0 <= k < |ts[i]| ==> Kept(ts[i][k])
    requires forall i :: 0 <= i < |seps| ==> IsSep(seps[i])
    ensures Fields(Join(ts, seps)) == ts
  {
    if ts != [] {
      var rest := Join(ts[1..], seps[1..]);
      TokenRoundTrip(ts[0], seps[0], rest);
      FieldsOfJoin(ts[1..], seps[1..]);
    }
  }

  /** The number of newline bytes in `s`. */
  function NewlineCount(s: seq<byte>): nat {
    multiset(s)[NL]
  }

  /** readLines: counts the newline bytes of the file and returns one less. */
  method ReadLines(file: seq<byte>) returns (lines: int)
    ensures lines == NewlineCount(file) - 1
  {
    lines := 0;
    var i := 0;
    while i < |file|
      invariant 0 <= i <= |file|
      invariant lines == multiset(file[..i])[NL]
    {
      assert file[..i + 1] == file[..i] + [file[i]];
      if file[i] == NL {
        lines := lines + 1;
      }
      i := i + 1;
    }
    assert file[..i] == file;
    lines := lines - 1;
  }
}
