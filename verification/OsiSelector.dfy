/** The OSI selector parser: an in-place tokenizer feeding a base-detecting number parser. */
module OsiSelector {
  import opened Outcomes
  import opened Numerals

  type byte = b: int | 0 <= b < 256

  const NUL: char := '\0'
  const ULONG_MAX: nat := 0xFFFF_FFFF_FFFF_FFFF

  datatype SelectorError = TooManyBytes | NotAByte | ExceedsInt | ExceedsByte

  // ---------------------------------------------------------------- tokens

  predicate IsDelimiter(c: char) {
    c == ' ' || c == ',' || c == '.' || c == '-'
  }

  lemma DelimitersExactly(c: char)
    ensures IsDelimiter(c) <==> c in " ,.-"
  {
    assert " ,.-"[0] == ' ' && " ,.-"[1] == ',' && " ,.-"[2] == '.' && " ,.-"[3] == '-';
  }

  predicate AllDelimiters(s: string) {
    forall i :: 0 <= i < |s| ==> IsDelimiter(s[i])
  }

  predicate IsToken(s: string) {
    s != "" && forall i :: 0 <= i < |s| ==> !IsDelimiter(s[i])
  }

  /** The length of the longest delimiter-free prefix. */
  function RunLength(s: string): (n: nat)
    ensures n <= |s|
    ensures forall i :: 0 <= i < n ==> !IsDelimiter(s[i])
    ensures n < |s| ==> IsDelimiter(s[n])
  {
    if s == "" || IsDelimiter(s[0]) then 0 else 1 + RunLength(s[1..])
  }

  /** The maximal delimiter-free runs of a text, in order. */
  function Tokens(s: string): seq<string>
    decreases |s|
  {
    if s == "" then []
    else if IsDelimiter(s[0]) then Tokens(s[1..])
    else [s[..RunLength(s)]] + Tokens(s[RunLength(s)..])
  }

  /** Tokens written between separators: one separator before each token and one at the end. */
  function Weave(separators: seq<string>, tokens: seq<string>): string
    requires |separators| == |tokens| + 1
  {
    if tokens == [] then separators[0]
    else separators[0] + (tokens[0] + Weave(separators[1..], tokens[1..]))
  }

  /** Separators hold delimiters only, and none between two tokens is empty. */
  predicate Separates(separators: seq<string>) {
    && (forall i :: 0 <= i < |separators| ==> AllDelimiters(separators[i]))
    && (forall i :: 0 < i < |separators| - 1 ==> separators[i] != "")
  }

  lemma {:induction false} TokensSkipDelimiters(d: string, s: string)
    requires AllDelimiters(d)
    ensures Tokens(d + s) == Tokens(s)
  {
    if d == "" {
      assert d + s == s;
    } else {
      assert (d + s)[1..] == d[1..] + s;
      TokensSkipDelimiters(d[1..], s);
    }
  }

  lemma RunLengthUnique(s: string, n: nat)
    requires n <= |s|
    requires forall i :: 0 <= i < n ==> !IsDelimiter(s[i])
    requires n < |s| ==> IsDelimiter(s[n])
    ensures RunLength(s) == n
  {
  }

  lemma TokensOfRun(t: string, rest: string)
    requires IsToken(t)
    requires rest == "" || IsDelimiter(rest[0])
    ensures Tokens(t + rest) == [t] + Tokens(rest)
  {
    RunLengthUnique(t + rest, |t|);
    assert (t + rest)[..|t|] == t && (t + rest)[|t|..] == rest;
  }

  /** Any way to write tokens between separators is undone by the tokenizer. */
  lemma {:induction false} TokensOfWeave(separators: seq<string>, tokens: seq<string>)
    requires |separators| == |tokens| + 1 && Separates(separators)
    requires forall i :: 0 <= i < |tokens| ==> IsToken(tokens[i])
    ensures Tokens(Weave(separators, tokens)) == tokens
  {
    if tokens == [] {
      assert separators[0] + "" == separators[0];
      TokensSkipDelimiters(separators[0], "");
    } else {
      var rest := Weave(separators[1..], tokens[1..]);
      TokensOfWeave(separators[1..], tokens[1..]);
      assert Weave(separators, tokens) == separators[0] + (tokens[0] + rest);
      TokensSkipDelimiters(separators[0], tokens[0] + rest);
      assert rest == "" || rest[0] == separators[1][0];
      TokensOfRun(tokens[0], rest);
    }
  }

  /** What a text holds between its tokens. */
  function Separators(s: string): (separators: seq<string>)
    ensures separators != []
    decreases |s|
  {
    if s == "" then [""]
    else if IsDelimiter(s[0]) then
      var tail := Separators(s[1..]);
      [[s[0]] + tail[0]] + tail[1..]
    else [""] + Separators(s[RunLength(s)..])
  }

  /** Conversely, every text is its own tokens written between its own separators. */
  lemma {:induction false} WeaveOfTokens(s: string)
    ensures |Separators(s)| == |Tokens(s)| + 1 && Separates(Separators(s))
    ensures forall i :: 0 <= i < |Tokens(s)| ==> IsToken(Tokens(s)[i])
    ensures Weave(Separators(s), Tokens(s)) == s
    decreases |s|
  {
    SeparatorsSeparate(s);
    if s != "" && IsDelimiter(s[0]) {
      WeaveOfTokens(s[1..]);
      WeaveFirst(Separators(s), Separators(s[1..]), Tokens(s), s[0]);
    } else if s != "" {
      var rest := s[RunLength(s)..];
      WeaveOfTokens(rest);
      assert Tokens(s)[1..] == Tokens(rest) && Separators(s)[1..] == Separators(rest);
      assert s[..RunLength(s)] + rest == s;
    }
  }

  lemma {:induction false} SeparatorsSeparate(s: string)
    ensures |Separators(s)| == |Tokens(s)| + 1 && Separates(Separators(s))
    ensures s != "" && IsDelimiter(s[0]) ==> Separators(s)[0] != ""
    ensures forall i :: 0 <= i < |Tokens(s)| ==> IsToken(Tokens(s)[i])
    decreases |s|
  {
    if s != "" && IsDelimiter(s[0]) {
      SeparatorsSeparate(s[1..]);
      assert Separators(s)[1..] == Separators(s[1..])[1..] && Tokens(s) == Tokens(s[1..]);
    } else if s != "" {
      SeparatorsSeparate(s[RunLength(s)..]);
      assert Separators(s)[1..] == Separators(s[RunLength(s)..]);
      assert IsToken(s[..RunLength(s)]) && Tokens(s)[1..] == Tokens(s[RunLength(s)..]);
    }
  }

  lemma WeaveFirst(longer: seq<string>, separators: seq<string>, tokens: seq<string>, c: char)
    requires |longer| == |separators| == |tokens| + 1
    requires longer[0] == [c] + separators[0] && longer[1..] == separators[1..]
    ensures Weave(longer, tokens) == [c] + Weave(separators, tokens)
  {
  }

  // ---------------------------------------------------------------- numbers

  predicate IsSpace(c: char) {
    c == ' ' || '\t' <= c <= '\r'
  }

  /** Space, tab, line feed, vertical tab, form feed and carriage return. */
  lemma SpacesExactly(c: char)
    ensures IsSpace(c) <==> c as int in {0x20, 0x09, 0x0A, 0x0B, 0x0C, 0x0D}
  {
  }

  function SkipSpaces(s: string): (n: nat)
    ensures n <= |s| && forall i :: 0 <= i < n ==> IsSpace(s[i])
    ensures n < |s| ==> !IsSpace(s[n])
  {
    if s != "" && IsSpace(s[0]) then 1 + SkipSpaces(s[1..]) else 0
  }

  function DigitRun(s: string, base: nat): (n: nat)
    ensures n <= |s| && AllDigits(s[..n], base)
    ensures n < |s| ==> !IsDigit(s[n], base)
  {
    if s != "" && IsDigit(s[0], base) then 1 + DigitRun(s[1..], base) else 0
  }

  /** The unsigned digits at the start of `s`, past a `0x` prefix that digits follow. */
  function DigitsPart(s: string, base: nat): string {
    var body := if base == 16 && |s| > 2 && s[0] == '0' && (s[1] == 'x' || s[1] == 'X') && IsDigit(s[2], 16)
                then s[2..] else s;
    body[..DigitRun(body, base)]
  }

  /** `std::stoul` over `strtoul` (section 7.22.1.4 of ISO/IEC 9899:2011), with a 64-bit
      `unsigned long`: white space, a sign that negates modulo 2^64, digits; what follows is ignored. */
  function Stoul(s: string, base: nat): Result<nat, SelectorError> {
    var t := s[SkipSpaces(s)..];
    var signed := t != "" && (t[0] == '+' || t[0] == '-');
    var digits := DigitsPart(if signed then t[1..] else t, base);
    var n := DigitsValue(digits, base);
    if digits == "" then Failure(NotAByte)
    else if n > ULONG_MAX then Failure(ExceedsInt)
    else if signed && t[0] == '-' && n > 0 then Success(ULONG_MAX + 1 - n)
    else Success(n)
  }

  /** What the parser makes of one token. */
  function ByteOf(token: string): Result<byte, SelectorError> {
    var base := if |token| >= 2 && token[..2] == "0x" then 16 else 10;
    match Stoul(token, base)
    case Failure(e) => Failure(e)
    case Success(n) => if n > 255 then Failure(ExceedsByte) else Success(n)
  }

  // ---------------------------------------------------------------- the outcome of a parse

  type Reading = Result<byte, SelectorError>

  /** What the parser makes of each token of a list. */
  function ByteOfEach(tokens: seq<string>): (readings: seq<Reading>)
    ensures |readings| == |tokens|
  {
    if tokens == [] then [] else [ByteOf(tokens[0])] + ByteOfEach(tokens[1..])
  }

  lemma {:induction false} ByteOfEachAt(tokens: seq<string>, i: nat)
    requires i < |tokens|
    ensures ByteOfEach(tokens)[i] == ByteOf(tokens[i])
  {
    if i > 0 {
      ByteOfEachAt(tokens[1..], i - 1);
    }
  }

  /** The first readings are the bytes `bytes`. */
  ghost predicate StartWith(readings: seq<Reading>, bytes: seq<byte>) {
    |bytes| <= |readings| && forall i :: 0 <= i < |bytes| ==> readings[i] == Success(bytes[i])
  }

  lemma StartWithOneMore(readings: seq<Reading>, bytes: seq<byte>, b: byte)
    requires StartWith(readings, bytes) && |bytes| < |readings| && readings[|bytes|] == Success(b)
    ensures StartWith(readings, bytes + [b])
  {
  }

  /** `bytes` were written before the parse ended with `error`, if any: reading `i` is byte `i`, and
      the parse stopped at the first token that is beyond the limit or is not a byte. */
  ghost predicate IsOutcome(readings: seq<Reading>, limit: nat, bytes: seq<byte>, error: Option<SelectorError>) {
    && |bytes| <= limit && StartWith(readings, bytes)
    && match error
       case None => |bytes| == |readings|
       case Some(e) => && |bytes| < |readings|
                       && if |bytes| == limit then e == TooManyBytes else readings[|bytes|] == Failure(e)
  }

  /** Every list of readings has exactly one outcome. */
  lemma OutcomeUnique(readings: seq<Reading>, limit: nat, bytes: seq<byte>, error: Option<SelectorError>,
                      bytes': seq<byte>, error': Option<SelectorError>)
    requires IsOutcome(readings, limit, bytes, error) && IsOutcome(readings, limit, bytes', error')
    ensures bytes == bytes' && error == error'
  {
  }

  /** The outcome for a text. */
  ghost predicate Parses(text: string, limit: nat, bytes: seq<byte>, error: Option<SelectorError>) {
    IsOutcome(ByteOfEach(Tokens(text)), limit, bytes, error)
  }

  /** A parse succeeds exactly when the maximal delimiter-free runs of the text are few enough and are all
      bytes; then it gives those bytes in order. */
  lemma SucceedsExactly(text: string, limit: nat, bytes: seq<byte>, error: Option<SelectorError>)
    requires Parses(text, limit, bytes, error)
    ensures error.None? <==>
            |Tokens(text)| <= limit && forall i :: 0 <= i < |Tokens(text)| ==> ByteOf(Tokens(text)[i]).Success?
    ensures error.None? ==>
            |bytes| == |Tokens(text)| && forall i :: 0 <= i < |bytes| ==> ByteOf(Tokens(text)[i]) == Success(bytes[i])
  {
    var tokens := Tokens(text);
    forall i | 0 <= i < |tokens|
      ensures ByteOfEach(tokens)[i] == ByteOf(tokens[i])
    {
      ByteOfEachAt(tokens, i);
    }
    if error.Some? && |bytes| < limit {
      assert ByteOf(tokens[|bytes|]).Failure?;
    }
  }

  /** The first token that is no byte, or the first beyond the limit, decides the error. */
  lemma FirstBadTokenDecides(text: string, limit: nat, bytes: seq<byte>, error: Option<SelectorError>, k: nat)
    requires Parses(text, limit, bytes, error)
    requires k < |Tokens(text)| && k <= limit
    requires forall i :: 0 <= i < k ==> ByteOf(Tokens(text)[i]).Success?
    requires k == limit || ByteOf(Tokens(text)[k]).Failure?
    ensures |bytes| == k
    ensures error == Some(if k == limit then TooManyBytes else ByteOf(Tokens(text)[k]).error)
  {
    var tokens := Tokens(text);
    ByteOfEachAt(tokens, k);
    if |bytes| < k {
      ByteOfEachAt(tokens, |bytes|);
    }
  }

  // ---------------------------------------------------------------- the imperative parser

  /** `strtok_r`, resumed at `from` in a buffer that holds `text` from there on. The token found, if any,
      is [start, end), and a delimiter that follows it becomes its terminator. */
  method StrTokR(buf: array<char>, from: nat, ghost text: string)
    returns (token: Option<nat>, context: nat, ghost end: nat)
    requires from <= |text| < buf.Length && buf[|text|] == NUL && NUL !in text
    requires forall k :: from <= k < |text| ==> buf[k] == text[k]
    modifies buf
    ensures token.None? ==> buf[..] == old(buf[..]) && context == |text| && AllDelimiters(text[from..])
    ensures token.Some? ==>
              && from <= token.value < end <= |text|
              && AllDelimiters(text[from..token.value]) && IsToken(text[token.value..end])
              && (end < |text| ==> IsDelimiter(text[end]))
              && context == After(text, end)
              && buf[..] == old(buf[..])[end := NUL]
  {
    var start := from;
    while IsDelimiter(buf[start])
      invariant from <= start <= |text|
      invariant forall k :: from <= k < start ==> IsDelimiter(text[k])
      decreases |text| - start
    {
      start := start + 1;
    }
    if buf[start] == NUL {
      assert start == |text|;
      return None, start, start;
    }
    var stop := start;
    while buf[stop] != NUL && !IsDelimiter(buf[stop])
      invariant start <= stop <= |text|
      invariant forall k :: start <= k < stop ==> !IsDelimiter(text[k])
      decreases |text| - stop
    {
      stop := stop + 1;
    }
    end, token := stop, Some(start);
    if buf[stop] == NUL {
      assert stop == |text|;
      context := stop;
      assert buf[..] == old(buf[..])[end := NUL];
    } else {
      buf[stop] := NUL;
      context := stop + 1;
    }
  }

  /** The buffer holds the C string `word` at [start, end). */
  ghost predicate HoldsCString(buf: array<char>, start: nat, end: nat, word: string)
    reads buf
  {
    start <= end < buf.Length && buf[start..end] == word && NUL !in word && buf[end] == NUL
  }

  /** What `std::string(const char *)` copies. */
  method CString(buf: array<char>, start: nat, ghost end: nat, ghost word: string) returns (s: string)
    requires HoldsCString(buf, start, end, word)
    ensures s == word
  {
    assert forall k :: start <= k < end ==> buf[k] == word[k - start] && word[k - start] in word;
    var stop := start;
    while buf[stop] != NUL
      invariant start <= stop <= end
      decreases end - stop
    {
      stop := stop + 1;
    }
    s := buf[start..stop];
  }

  /** The text of a buffer: what precedes its first NUL. */
  function TextOf(s: seq<char>): (text: string)
    ensures |text| <= |s| && text == s[..|text|]
    ensures |text| < |s| ==> s[|text|] == NUL
    ensures NUL !in text
  {
    if s == [] || s[0] == NUL then [] else [s[0]] + TextOf(s[1..])
  }

  /** The buffer once the tokens before `p` were cut: a delimiter that ends one of them became NUL. */
  function Cut(text: string, p: nat, k: nat): char
    requires k < |text|
  {
    if 0 < k < p && IsDelimiter(text[k]) && !IsDelimiter(text[k - 1]) then NUL else text[k]
  }

  /** The tokens of a text from position `i` on, by positions in the text. */
  ghost function TokensFrom(text: string, i: nat): seq<string>
    requires i <= |text|
    decreases |text| - i
  {
    if i == |text| then []
    else if IsDelimiter(text[i]) then TokensFrom(text, i + 1)
    else [text[i..i + RunLength(text[i..])]] + TokensFrom(text, i + RunLength(text[i..]))
  }

  lemma {:induction false} TokensFromSuffix(text: string, i: nat)
    requires i <= |text|
    ensures TokensFrom(text, i) == Tokens(text[i..])
    decreases |text| - i
  {
    if i < |text| {
      var n := if IsDelimiter(text[i]) then 1 else RunLength(text[i..]);
      assert text[i..][n..] == text[i + n..] && text[i..][..n] == text[i..i + n];
      TokensFromSuffix(text, i + n);
    }
  }

  /** The position from which `strtok_r` resumes after a token that ends at `end`. */
  function After(text: string, end: nat): nat {
    if end < |text| then end + 1 else end
  }

  /** One call of `strtok_r` finds the first token of the rest of the text. */
  lemma TokenFound(text: string, from: nat, start: nat, end: nat)
    requires from <= start < end <= |text|
    requires AllDelimiters(text[from..start]) && IsToken(text[start..end])
    requires end < |text| ==> IsDelimiter(text[end])
    ensures TokensFrom(text, from) == [text[start..end]] + TokensFrom(text, After(text, end))
  {
    var run, rest := text[start..end], text[end..];
    TokensFromSuffix(text, from);
    TokensFromSuffix(text, end);
    assert text[from..] == text[from..start] + (run + rest);
    TokensSkipDelimiters(text[from..start], run + rest);
    TokensOfRun(run, rest);
  }

  /** ... and cuts the buffer after it. */
  lemma TokenCut(text: string, from: nat, start: nat, end: nat)
    requires from <= start < end <= |text|
    requires from > 0 ==> IsDelimiter(text[from - 1])
    requires AllDelimiters(text[from..start]) && IsToken(text[start..end])
    requires end < |text| ==> IsDelimiter(text[end])
    ensures forall k :: 0 <= k < |text| ==>
              Cut(text, After(text, end), k) == if k == end then NUL else Cut(text, from, k)
  {
    forall k | 0 <= k < |text|
      ensures Cut(text, After(text, end), k) == if k == end then NUL else Cut(text, from, k)
    {
      if from <= k < start {
        assert text[from..start][k - from] == text[k];
        assert k > from ==> text[from..start][k - 1 - from] == text[k - 1];
      } else if start <= k < end {
        assert text[start..end][k - start] == text[k];
      } else if k == end {
        assert text[start..end][k - 1 - start] == text[k - 1];
      }
    }
  }

  /** When only delimiters are left, no token is left and nothing more is cut. */
  lemma NoMoreTokens(text: string, from: nat)
    requires from <= |text| && AllDelimiters(text[from..])
    requires 0 < from < |text| ==> IsDelimiter(text[from - 1])
    ensures TokensFrom(text, from) == []
    ensures forall k :: 0 <= k < |text| ==> Cut(text, |text|, k) == Cut(text, from, k)
  {
    TokensFromSuffix(text, from);
    assert text[from..] + "" == text[from..];
    TokensSkipDelimiters(text[from..], "");
    forall k | from <= k < |text|
      ensures Cut(text, |text|, k) == Cut(text, from, k)
    {
      assert from < k ==> IsDelimiter(text[from..][k - 1 - from]);
    }
  }

  /** What the buffer that held `original` holds once the tokens before `reached` were cut from its text. */
  ghost predicate CutUpTo(buf: array<char>, original: seq<char>, text: string, reached: nat)
    reads buf
  {
    && buf.Length == |original| >= |text|
    && forall k :: 0 <= k < buf.Length ==> buf[k] == if k < |text| then Cut(text, reached, k) else original[k]
  }

  /** `strtok_r` in a buffer cut up to `from`: the next token is the first of the rest of the text, and is
      a C string in the buffer, which is now cut up to `context`. */
  method NextToken(buf: array<char>, from: nat, ghost original: seq<char>, ghost text: string)
    returns (token: Option<nat>, context: nat, ghost end: nat, ghost word: string)
    requires from <= |text| < buf.Length && NUL !in text && (0 < from < |text| ==> IsDelimiter(text[from - 1]))
    requires CutUpTo(buf, original, text, from) && original[|text|] == NUL
    modifies buf
    ensures context <= |text| && (0 < context < |text| ==> IsDelimiter(text[context - 1]))
    ensures CutUpTo(buf, original, text, context)
    ensures token.None? ==> context == |text| && TokensFrom(text, from) == []
    ensures token.Some? ==>
              && from < context && HoldsCString(buf, token.value, end, word)
              && TokensFrom(text, from) != [] && TokensFrom(text, from)[0] == word
              && TokensFrom(text, context) == TokensFrom(text, from)[1..]
  {
    token, context, end := StrTokR(buf, from, text);
    word := "";
    if token.None? {
      NoMoreTokens(text, from);
    } else {
      word := text[token.value..end];
      TokenFound(text, from, token.value, end);
      TokenCut(text, from, token.value, end);
      assert buf[token.value..end] == word;
    }
  }

  /** The cells hold the bytes written, and after them what they held before. */
  ghost predicate Written(selectorValue: array<byte>, bytes: seq<byte>, before: seq<byte>)
    reads selectorValue
  {
    && |bytes| <= selectorValue.Length == |before|
    && forall k :: 0 <= k < |before| ==> selectorValue[k] == if k < |bytes| then bytes[k] else before[k]
  }

  /** One round of the parser's loop: the byte of the token at `nextToken` goes to cell `count`. */
  method StoreByte(input: array<char>, nextToken: nat, ghost end: nat, ghost word: string,
                   selectorValue: array<byte>, selectorSize: byte, count: nat,
                   ghost bytes: seq<byte>, ghost before: seq<byte>)
    returns (r: Result<byte, SelectorError>)
    requires HoldsCString(input, nextToken, end, word)
    requires count == |bytes| <= selectorSize <= selectorValue.Length && Written(selectorValue, bytes, before)
    modifies selectorValue
    ensures r.Failure? ==> Written(selectorValue, bytes, before)
    ensures r.Failure? ==> if count == selectorSize then r.error == TooManyBytes else ByteOf(word) == r
    ensures r.Success? ==> count < selectorSize && ByteOf(word) == r
    ensures r.Success? ==> Written(selectorValue, bytes + [r.value], before)
  {
    if count >= selectorSize {
      return Failure(TooManyBytes);
    }
    var token := CString(input, nextToken, end, word);
    var base := 10;
    if |token| >= 2 && token[..2] == "0x" {
      base := 16;
    }
    match Stoul(token, base) {
      case Failure(e) => r := Failure(e);
      case Success(ul) =>
        if ul > 255 {
          return Failure(ExceedsByte);
        }
        selectorValue[count] := ul;
        r := Success(ul);
    }
  }

  /** The parser's loop, for the text that `input` holds. */
  method ParseTokens(input: array<char>, selectorValue: array<byte>, selectorSize: byte,
                     ghost original: seq<char>, ghost text: string, ghost cells: seq<byte>)
    returns (r: Result<byte, SelectorError>, ghost bytes: seq<byte>, ghost reached: nat)
    requires CutUpTo(input, original, text, 0)
    requires |text| < |original| && NUL !in text && original[|text|] == NUL
    requires selectorSize <= selectorValue.Length && Written(selectorValue, [], cells)
    modifies input, selectorValue
    ensures IsOutcome(ByteOfEach(TokensFrom(text, 0)), selectorSize, bytes, if r.Success? then None else Some(r.error))
    ensures r.Success? ==> r.value == |bytes| && reached == |text|
    ensures Written(selectorValue, bytes, cells) && CutUpTo(input, original, text, reached)
  {
    ghost var words := TokensFrom(text, 0);
    ghost var readings := ByteOfEach(words);
    bytes := [];
    var nextToken, tokenContext, end, word := NextToken(input, 0, original, text);
    var count := 0;
    while nextToken.Some?
      invariant tokenContext <= |text| && (0 < tokenContext < |text| ==> IsDelimiter(text[tokenContext - 1]))
      invariant CutUpTo(input, original, text, tokenContext)
      invariant nextToken.None? ==> tokenContext == |text| && count == |words|
      invariant nextToken.Some? ==>
                  && HoldsCString(input, nextToken.value, end, word)
                  && count < |words| && word == words[count]
                  && TokensFrom(text, tokenContext) == words[count + 1..]
      invariant |bytes| == count <= selectorSize && StartWith(readings, bytes)
      invariant Written(selectorValue, bytes, cells)
      decreases |text| - tokenContext, nextToken.Some?
    {
      reached := tokenContext;
      ByteOfEachAt(words, count);
      var ul := StoreByte(input, nextToken.value, end, word, selectorValue, selectorSize, count, bytes, cells);
      if ul.Failure? {
        return Failure(ul.error), bytes, reached;
      }
      StartWithOneMore(readings, bytes, ul.value);
      count := count + 1;
      bytes := bytes + [ul.value];
      nextToken, tokenContext, end, word := NextToken(input, tokenContext, original, text);
    }
    r, reached := Success(count), tokenContext;
  }

  /** The parser: it writes the bytes of the tokens in order, stops at the first that is not one, leaves
      the later cells alone, and cuts the input after each token it reached. */
  method ParseOsiSelector(input: array<char>, selectorValue: array<byte>, selectorSize: byte)
    returns (r: Result<byte, SelectorError>, ghost bytes: seq<byte>, ghost reached: nat)
    requires input.Length > 0 && input[input.Length - 1] == NUL
    requires selectorSize <= selectorValue.Length
    modifies input, selectorValue
    ensures Parses(TextOf(old(input[..])), selectorSize, bytes, if r.Success? then None else Some(r.error))
    ensures r.Success? ==> r.value == |bytes| && reached == |TextOf(old(input[..]))|
    ensures Written(selectorValue, bytes, old(selectorValue[..]))
    ensures CutUpTo(input, old(input[..]), TextOf(old(input[..])), reached)
  {
    ghost var original, text := input[..], TextOf(input[..]);
    assert |text| < |original| && NUL !in text by {
      assert original[|original| - 1] == NUL && (|text| == |original| ==> text == original);
    }
    assert text[0..] == text;
    TokensFromSuffix(text, 0);
    r, bytes, reached := ParseTokens(input, selectorValue, selectorSize, original, text, selectorValue[..]);
  }

  method ParseOsiPSelector(input: array<char>, value: array<byte>)
    returns (r: Result<byte, SelectorError>, ghost bytes: seq<byte>)
    requires input.Length > 0 && input[input.Length - 1] == NUL
    requires value.Length == 16
    modifies input, value
    ensures Parses(TextOf(old(input[..])), 16, bytes, if r.Success? then None else Some(r.error))
    ensures r.Success? ==> r.value == |bytes|
    ensures Written(value, bytes, old(value[..]))
  {
    ghost var reached;
    r, bytes, reached := ParseOsiSelector(input, value, 16);
  }

  method ParseOsiSSelector(input: array<char>, value: array<byte>)
    returns (r: Result<byte, SelectorError>, ghost bytes: seq<byte>)
    requires input.Length > 0 && input[input.Length - 1] == NUL
    requires value.Length == 16
    modifies input, value
    ensures Parses(TextOf(old(input[..])), 16, bytes, if r.Success? then None else Some(r.error))
    ensures r.Success? ==> r.value == |bytes|
    ensures Written(value, bytes, old(value[..]))
  {
    ghost var reached;
    r, bytes, reached := ParseOsiSelector(input, value, 16);
  }

  method ParseOsiTSelector(input: array<char>, value: array<byte>)
    returns (r: Result<byte, SelectorError>, ghost bytes: seq<byte>)
    requires input.Length > 0 && input[input.Length - 1] == NUL
    requires value.Length == 4
    modifies input, value
    ensures Parses(TextOf(old(input[..])), 4, bytes, if r.Success? then None else Some(r.error))
    ensures r.Success? ==> r.value == |bytes|
    ensures Written(value, bytes, old(value[..]))
  {
    ghost var reached;
    r, bytes, reached := ParseOsiSelector(input, value, 4);
  }

  // ---------------------------------------------------------------- round trip

  /** The form in which a byte is printed: in decimal, or in hexadecimal with digits of either case. */
  datatype ByteFormat = Decimal | Hexadecimal(upperHigh: bool, upperLow: bool)

  function PrintByte(b: byte, form: ByteFormat): string {
    match form
    case Decimal => PrintNat(b)
    case Hexadecimal(upperHigh, upperLow) => PrintHexByte(b, upperHigh, upperLow)
  }

  function PrintBytes(bytes: seq<byte>, forms: seq<ByteFormat>): seq<string>
    requires |bytes| == |forms|
  {
    seq(|bytes|, i requires 0 <= i < |bytes| => PrintByte(bytes[i], forms[i]))
  }

  lemma {:induction false} DigitRunOf(digits: string, tail: string, base: nat)
    requires AllDigits(digits, base) && (tail == "" || !IsDigit(tail[0], base))
    ensures DigitRun(digits + tail, base) == |digits|
  {
    if digits != "" {
      assert (digits + tail)[1..] == digits[1..] + tail;
      DigitRunOf(digits[1..], tail, base);
    }
  }

  /** The reading of a number that fits no byte, or fits one. */
  function Reads(n: nat): Reading {
    if n > ULONG_MAX then Failure(ExceedsInt) else if n > 255 then Failure(ExceedsByte) else Success(n)
  }

  lemma ReadsExactly(n: nat)
    ensures n <= 255 ==> Reads(n) == Success(n)
    ensures 255 < n < 0x1_0000_0000_0000_0000 ==> Reads(n) == Failure(ExceedsByte)
    ensures n >= 0x1_0000_0000_0000_0000 ==> Reads(n) == Failure(ExceedsInt)
  {
  }

  lemma StoulUnsigned(s: string, base: nat, digits: string)
    requires s != "" && IsDigit(s[0], 10) && digits != "" && DigitsPart(s, base) == digits
    ensures var n := DigitsValue(digits, base);
            Stoul(s, base) == if n > ULONG_MAX then Failure(ExceedsInt) else Success(n)
  {
  }

  predicate IsMarkedHex(token: string) {
    |token| >= 2 && token[..2] == "0x"
  }

  /** White space, an optional plus sign, a maximal run of decimal digits, and anything after it. */
  predicate IsDecimal(token: string, spaces: string, sign: string, digits: string, tail: string) {
    && token == spaces + (sign + (digits + tail))
    && (forall i :: 0 <= i < |spaces| ==> IsSpace(spaces[i])) && (sign == "" || sign == "+")
    && digits != "" && AllDigits(digits, 10) && (tail == "" || !IsDigit(tail[0], 10))
  }

  /** What follows the white space and the plus sign of a token. */
  function NumberPart(token: string): string {
    var rest := token[SkipSpaces(token)..];
    if rest != "" && rest[0] == '+' then rest[1..] else rest
  }

  lemma ByteOfNumberPart(token: string)
    requires !IsMarkedHex(token) && (SkipSpaces(token) < |token| ==> token[SkipSpaces(token)] != '-')
    ensures var digits := NumberPart(token)[..DigitRun(NumberPart(token), 10)];
            ByteOf(token) == if digits == "" then Failure(NotAByte) else Reads(DigitsValue(digits, 10))
  {
    hide DigitsValue, DigitRun, SkipSpaces;
    var rest := token[SkipSpaces(token)..];
    assert rest != "" ==> rest[0] == token[SkipSpaces(token)];
  }

  lemma SpacesSkipped(spaces: string, rest: string)
    requires (forall i :: 0 <= i < |spaces| ==> IsSpace(spaces[i])) && rest != "" && !IsSpace(rest[0])
    ensures SkipSpaces(spaces + rest) == |spaces| && (spaces + rest)[|spaces|..] == rest
  {
    var s := spaces + rest;
    assert s[|spaces|] == rest[0] && forall i :: 0 <= i < |spaces| ==> s[i] == spaces[i];
  }

  lemma DigitsFound(digits: string, tail: string)
    requires AllDigits(digits, 10) && (tail == "" || !IsDigit(tail[0], 10))
    ensures (digits + tail)[..DigitRun(digits + tail, 10)] == digits
  {
    DigitRunOf(digits, tail, 10);
  }

  /** Without the prefix `0x`, such a token is read by its decimal digits alone: whatever follows is ignored. */
  lemma DecimalPrefixDecides(token: string, spaces: string, sign: string, digits: string, tail: string)
    requires !IsMarkedHex(token) && IsDecimal(token, spaces, sign, digits, tail)
    ensures ByteOf(token) == Reads(DigitsValue(digits, 10))
  {
    hide DigitsValue, DigitRun, SkipSpaces, ByteOf, Reads;
    var rest, body := sign + (digits + tail), digits + tail;
    assert IsDigit(digits[0], 10) && body[0] == digits[0] && rest[0] == (if sign == "" then body else sign)[0];
    SpacesSkipped(spaces, rest);
    assert NumberPart(token) == body;
    DigitsFound(digits, tail);
    ByteOfNumberPart(token);
  }

  /** What reads as a byte: past `0x`, any run of hexadecimal digits, even an empty one, with a value of at most 255;
      otherwise white space, an optional plus sign and a run of decimal digits with a value of at most 255. */
  lemma ByteTokensExactly(token: string)
    requires IsToken(token)
    ensures ByteOf(token).Success? <==>
              if IsMarkedHex(token) then DigitsValue(token[2..2 + DigitRun(token[2..], 16)], 16) <= 255
              else exists spaces, sign, digits, tail ::
                     IsDecimal(token, spaces, sign, digits, tail) && DigitsValue(digits, 10) <= 255
  {
    hide Stoul, DigitsValue;
    if IsMarkedHex(token) {
      HexTokens(token);
    } else {
      if spaces, sign, digits, tail :| IsDecimal(token, spaces, sign, digits, tail) && DigitsValue(digits, 10) <= 255 {
        DecimalPrefixDecides(token, spaces, sign, digits, tail);
      }
      if ByteOf(token).Success? {
        var spaces, sign, digits, tail := DecimalToken(token);
        DecimalPrefixDecides(token, spaces, sign, digits, tail);
      }
    }
  }

  lemma HexTokens(token: string)
    requires IsMarkedHex(token)
    ensures ByteOf(token).Success? <==> DigitsValue(token[2..2 + DigitRun(token[2..], 16)], 16) <= 255
  {
    hide Stoul;
    var body := token[2..];
    var n := DigitRun(body, 16);
    assert token[2..2 + n] == body[..n] && body == body[..n] + body[n..] && token == "0x" + body;
    if n == 0 {
      BareHexPrefix(body);
    } else {
      HexPrefixDecides(body[..n], body[n..]);
    }
  }

  lemma SplitAt(s: string, n: nat)
    requires n <= |s|
    ensures s[..n] + s[n..] == s
  {
  }

  lemma SignSplit(rest: string) returns (sign: string, body: string)
    ensures rest == sign + body && (sign == "" || sign == "+")
    ensures body == if rest != "" && rest[0] == '+' then rest[1..] else rest
  {
    if rest != "" && rest[0] == '+' {
      sign, body := "+", rest[1..];
    } else {
      sign, body := "", rest;
    }
  }

  lemma DecimalToken(token: string) returns (spaces: string, sign: string, digits: string, tail: string)
    requires IsToken(token) && !IsMarkedHex(token) && ByteOf(token).Success?
    ensures IsDecimal(token, spaces, sign, digits, tail)
  {
    hide DigitsValue, DigitRun, SkipSpaces, ByteOf, Reads, IsSpace, IsMarkedHex;
    var n := SkipSpaces(token);
    assert n < |token| ==> !IsDelimiter(token[n]);
    hide IsToken;
    ByteOfNumberPart(token);
    SplitAt(token, n);
    var body;
    sign, body := SignSplit(token[n..]);
    SplitAt(body, DigitRun(body, 10));
    spaces, digits, tail := token[..n], body[..DigitRun(body, 10)], body[DigitRun(body, 10)..];
    assert body == NumberPart(token);
  }

  /** After `0x` it is read by the hexadecimal digits. */
  lemma HexPrefixDecides(digits: string, tail: string)
    requires digits != "" && AllDigits(digits, 16) && (tail == "" || !IsDigit(tail[0], 16))
    ensures ByteOf("0x" + (digits + tail)) == Reads(DigitsValue(digits, 16))
  {
    var body := digits + tail;
    var s := "0x" + body;
    assert IsDigit(digits[0], 16) && s[2] == digits[0] && s[2..] == body;
    assert DigitsPart(s, 16) == digits by {
      DigitRunOf(digits, tail, 16);
      assert body[..|digits|] == digits;
    }
    StoulUnsigned(s, 16, digits);
    assert s[..2] == "0x";
  }

  /** When no hexadecimal digit follows `0x`, the `0` alone is read. */
  lemma BareHexPrefix(tail: string)
    requires tail == "" || !IsDigit(tail[0], 16)
    ensures ByteOf("0x" + tail) == Success(0)
  {
    var s := "0x" + tail;
    assert tail != "" ==> s[2] == tail[0];
    assert DigitsPart(s, 16) == "0" by {
      DigitRunOf("0", "x" + tail, 16);
      assert s == "0" + ("x" + tail) && s[..1] == "0";
    }
    StoulUnsigned(s, 16, "0");
    assert "0"[..0] == "" && s[..2] == "0x";
  }

  lemma DigitsAreToken(s: string)
    requires s != "" && AllDigits(s, 10)
    ensures IsToken(s) && NUL !in s
  {
  }

  lemma HexByteParses(b: byte, upperHigh: bool, upperLow: bool)
    ensures IsToken(PrintHexByte(b, upperHigh, upperLow)) && NUL !in PrintHexByte(b, upperHigh, upperLow)
    ensures ByteOf(PrintHexByte(b, upperHigh, upperLow)) == Success(b)
  {
    hide ByteOf, DigitsValue;
    var s := PrintHexByte(b, upperHigh, upperLow);
    PrintHexByteDenotes(b, upperHigh, upperLow);
    HexPrefixDecides(s[2..], "");
    assert s == "0x" + (s[2..] + "");
  }

  lemma DecimalByteParses(b: byte)
    ensures IsToken(PrintNat(b)) && NUL !in PrintNat(b)
    ensures ByteOf(PrintNat(b)) == Success(b)
  {
    var s := PrintNat(b);
    PrintNatDenotes(b);
    DigitsAreToken(s);
    assert |s| >= 2 ==> s[1] == s[..2][1] && IsDigit(s[1], 10);
    DecimalPrefixDecides(s, "", "", s, "");
  }

  lemma PrintedByteParses(b: byte, form: ByteFormat)
    ensures IsToken(PrintByte(b, form)) && NUL !in PrintByte(b, form)
    ensures ByteOf(PrintByte(b, form)) == Success(b)
  {
    match form
    case Decimal => DecimalByteParses(b);
    case Hexadecimal(upperHigh, upperLow) => HexByteParses(b, upperHigh, upperLow);
  }

  lemma {:induction false} WeaveHasNoNul(separators: seq<string>, tokens: seq<string>)
    requires |separators| == |tokens| + 1 && Separates(separators)
    requires forall i :: 0 <= i < |tokens| ==> NUL !in tokens[i]
    ensures NUL !in Weave(separators, tokens)
  {
    assert NUL !in separators[0];
    if tokens != [] {
      WeaveHasNoNul(separators[1..], tokens[1..]);
    }
  }

  lemma {:induction false} TextOfTerminated(s: string)
    requires NUL !in s
    ensures TextOf(s + [NUL]) == s
  {
    if s != "" {
      assert (s + [NUL])[1..] == s[1..] + [NUL];
      TextOfTerminated(s[1..]);
    }
  }

  /** Bytes printed one by one, each in decimal or in hexadecimal with digits of either case, with any delimiters around
      them, parse back: all of them when they fit, and otherwise as many as fit before the error. */
  lemma SelectorRoundTrip(bytes: seq<byte>, forms: seq<ByteFormat>, separators: seq<string>, limit: nat,
                          written: seq<byte>, error: Option<SelectorError>)
    requires |forms| == |bytes| && |separators| == |bytes| + 1 && Separates(separators)
    requires Parses(TextOf(Weave(separators, PrintBytes(bytes, forms)) + [NUL]), limit, written, error)
    ensures |bytes| <= limit ==> written == bytes && error == None
    ensures |bytes| > limit ==> written == bytes[..limit] && error == Some(TooManyBytes)
  {
    var tokens := PrintBytes(bytes, forms);
    forall i | 0 <= i < |bytes|
      ensures IsToken(tokens[i]) && NUL !in tokens[i] 
              && ByteOfEach(tokens)[i] == Success(bytes[i])
    {
      PrintedByteParses(bytes[i], forms[i]);
      ByteOfEachAt(tokens, i);
    }
    WeaveHasNoNul(separators, tokens);
    TextOfTerminated(Weave(separators, tokens));
    TokensOfWeave(separators, tokens);
    OutcomeUnique(ByteOfEach(tokens), limit, written, error,
                  if |bytes| <= limit then bytes else bytes[..limit],
                  if |bytes| <= limit then None else Some(TooManyBytes));
  }
}
