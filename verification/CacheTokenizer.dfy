/**
 The tokenizer of AT-SPI bulk cache replies: the loop over the bytes, the function it computes,
 and the grammar of the texts it accepts.
 */
module CacheTokenizer {
  import opened Outcome
  import opened RustText
  import opened Utf8

  datatype CacheError =
    | UnexpectedSignature
    | TooManyItems
    | TrailingTokens
    | TruncatedReply
    | ExpectedWord
    | ExpectedQuoted
    | InvalidCount
    | InvalidInteger
    | InvalidUnsigned
    | NonUtf8Word
    | NonUtf8String
    | TruncatedEscape
    | InvalidOctalEscape
    | UnterminatedString

  datatype Token = Word(text: Text) | Quoted(text: Text)

  const QUOTE: byte := 0x22
  const BACKSLASH: byte := 0x5C
  const SPACE: byte := 0x20

  /** ASCII white space: tab, line feed, form feed, carriage return and space (no vertical tab). */
  predicate IsBlank(b: byte) {
    b == 0x09 || b == 0x0A || b == 0x0C || b == 0x0D || b == SPACE
  }

  /** Three decimal digits stand at `i`. */
  predicate DigitsAt(s: Text, i: nat) {
    i + 2 < |s| && IsDigit(s[i]) && IsDigit(s[i + 1]) && IsDigit(s[i + 2])
  }

  // ---------- What the loops compute ----------

  /** The first position from `i` on that holds no white space. */
  function SkipSpace(s: Text, i: nat): (j: nat)
    requires i <= |s|
    ensures i <= j <= |s|
    ensures forall k :: i <= k < j ==> IsBlank(s[k])
    ensures j < |s| ==> !IsBlank(s[j])
    decreases |s| - i
  {
    if i < |s| && IsBlank(s[i]) then SkipSpace(s, i + 1) else i
  }

  /** The first position from `i` on that holds white space. */
  function WordEnd(s: Text, i: nat): (j: nat)
    requires i <= |s|
    ensures i <= j <= |s|
    ensures forall k :: i <= k < j ==> !IsBlank(s[k])
    ensures j < |s| ==> IsBlank(s[j])
    decreases |s| - i
  {
    if i < |s| && !IsBlank(s[i]) then WordEnd(s, i + 1) else i
  }

  /** The byte three decimal digits denote in base eight, if they do and it fits one byte. */
  function OctalByte(a: byte, b: byte, c: byte): Option<byte>
    requires IsDigit(a) && IsDigit(b) && IsDigit(c)
  {
    if a <= 0x33 && b <= 0x37 && c <= 0x37 then
      Some((a - 0x30) * 64 + (b - 0x30) * 8 + (c - 0x30))
    else
      None
  }

  type Scan = Result<(Text, nat), CacheError>

  function Push(prefix: Text, r: Scan): Scan {
    match r
    case Ok((value, next)) => Ok((prefix + value, next))
    case Err(e) => Err(e)
  }

  /** The rest of a quoted string's value from `i` on, and the position after its closing quote. */
  function ScanQuoted(s: Text, i: nat): (r: Scan)
    requires i <= |s|
    ensures r.Ok? ==> i < r.value.1 <= |s| && s[r.value.1 - 1] == QUOTE
    decreases |s| - i
  {
    if i == |s| then Err(UnterminatedString)
    else if s[i] == QUOTE then Ok(([], i + 1))
    else if s[i] == BACKSLASH then
      if i + 1 == |s| then Err(TruncatedEscape)
      else if DigitsAt(s, i + 1) then
        match OctalByte(s[i + 1], s[i + 2], s[i + 3])
        case Some(b) => Push([b], ScanQuoted(s, i + 4))
        case None => Err(InvalidOctalEscape)
      else Push([s[i + 1]], ScanQuoted(s, i + 2))
    else Push([s[i]], ScanQuoted(s, i + 1))
  }

  type TokenResult = Result<seq<Token>, CacheError>

  function Prepend(ts: seq<Token>, r: TokenResult): TokenResult {
    match r
    case Ok(us) => Ok(ts + us)
    case Err(e) => Err(e)
  }

  /** The tokens of `s` from position `i` on. */
  function TokensFrom(s: Text, i: nat): TokenResult
    requires i <= |s|
    decreases |s| - i
  {
    var start := SkipSpace(s, i);
    if start == |s| then Ok([])
    else if s[start] != QUOTE then
      var end := WordEnd(s, start);
      if Valid(s[start..end]) then Prepend([Word(s[start..end])], TokensFrom(s, end)) else Err(NonUtf8Word)
    else
      match ScanQuoted(s, start + 1)
      case Err(e) => Err(e)
      case Ok((value, next)) =>
        if Valid(value) then Prepend([Quoted(value)], TokensFrom(s, next)) else Err(NonUtf8String)
  }

  // ---------- The loops ----------

  lemma PushAppends(value: Text, b: byte, r: Scan)
    ensures Push(value, Push([b], r)) == Push(value + [b], r)
    ensures Push([], r) == r
  {
    if r.Ok? {
      assert value + ([b] + r.value.0) == value + [b] + r.value.0;
      assert [] + r.value.0 == r.value.0;
    }
  }

  lemma PrependAppends(ts: seq<Token>, t: Token, r: TokenResult)
    ensures Prepend(ts, Prepend([t], r)) == Prepend(ts + [t], r)
    ensures Prepend([], r) == r
  {
    if r.Ok? {
      assert [] + r.value == r.value;
      assert ts + ([t] + r.value) == ts + [t] + r.value;
    }
  }

  /** The inner loop: reads a quoted string whose opening quote has been consumed. */
  method ReadQuoted(input: Text, start: nat) returns (r: Scan)
    requires start <= |input|
    ensures r == ScanQuoted(input, start)
  {
    var index := start;
    var value: Text := [];
    var closed := false;
    PushAppends([], 0, ScanQuoted(input, start));
    while index < |input| && !closed
      invariant start <= index <= |input|
      invariant closed ==> ScanQuoted(input, start) == Ok((value, index))
      invariant !closed ==> ScanQuoted(input, start) == Push(value, ScanQuoted(input, index))
      decreases |input| - index, !closed
    {
      if input[index] == QUOTE {
        assert value + [] == value;
        index := index + 1;
        closed := true;
      } else if input[index] == BACKSLASH {
        index := index + 1;
        if index >= |input| {
          return Err(TruncatedEscape);
        }
        if index + 2 < |input| && IsDigit(input[index]) && IsDigit(input[index + 1]) && IsDigit(input[index + 2]) {
          match OctalByte(input[index], input[index + 1], input[index + 2]) {
            case None =>
              return Err(InvalidOctalEscape);
            case Some(b) =>
              PushAppends(value, b, ScanQuoted(input, index + 3));
              value := value + [b];
              index := index + 3;
          }
        } else {
          PushAppends(value, input[index], ScanQuoted(input, index + 1));
          value := value + [input[index]];
          index := index + 1;
        }
      } else {
        PushAppends(value, input[index], ScanQuoted(input, index + 1));
        value := value + [input[index]];
        index := index + 1;
      }
    }
    if !closed {
      return Err(UnterminatedString);
    }
    r := Ok((value, index));
  }

  /** The outer loop: the tokens of the whole input. */
  method Tokenize(input: Text) returns (r: TokenResult)
    ensures r == TokensFrom(input, 0)
  {
    hide Valid, ScanQuoted;
    var tokens: seq<Token> := [];
    var index := 0;
    PrependAppends([], Word([]), TokensFrom(input, 0));
    while index < |input|
      invariant index <= |input|
      invariant TokensFrom(input, 0) == Prepend(tokens, TokensFrom(input, index))
    {
      ghost var from := index;
      while index < |input| && IsBlank(input[index])
        invariant from <= index <= |input|
        invariant SkipSpace(input, from) == SkipSpace(input, index)
      {
        index := index + 1;
      }
      if index >= |input| {
        break;
      }
      if input[index] != QUOTE {
        var start := index;
        while index < |input| && !IsBlank(input[index])
          invariant start <= index <= |input|
          invariant WordEnd(input, start) == WordEnd(input, index)
        {
          index := index + 1;
        }
        var word := input[start..index];
        if !Valid(word) {
          return Err(NonUtf8Word);
        }
        PrependAppends(tokens, Word(word), TokensFrom(input, index));
        tokens := tokens + [Word(word)];
        continue;
      }
      var scan := ReadQuoted(input, index + 1);
      if scan.Err? {
        return Err(scan.error);
      }
      var (value, next) := scan.value;
      index := next;
      if !Valid(value) {
        return Err(NonUtf8String);
      }
      PrependAppends(tokens, Quoted(value), TokensFrom(input, index));
      tokens := tokens + [Quoted(value)];
    }
    assert tokens + [] == tokens;
    r := Ok(tokens);
  }
}
