/** FAM/1 message bodies, correlation identifiers and transaction ids
    (src/fam/common/message.py). */
module Message {
  import opened Options

  const PROTOCOL_TOKEN := "FAM/1"
  const REQUEST_KEYWORD := "REQUEST"
  const ACK_KEYWORD := "ACK"
  const SEQUENCE_DIGITS := 5
  const PADDING_CHARACTER := 'x'

  /** Beyond this many digits the interpreter converts between int and str only by
      raising ValueError, which no code here catches. */
  const MAX_INT_DIGITS := 4300

  // ------------------------------------------------------------ characters

  /** Python's `str.isspace`, which both `str.strip` and `\s` use. */
  predicate IsSpace(c: char) {
    var n := c as int;
    9 <= n <= 13 || 28 <= n <= 32 || n == 0x85 || n == 0xA0 || n == 0x1680 ||
    0x2000 <= n <= 0x200A || n == 0x2028 || n == 0x2029 || n == 0x202F || n == 0x205F || n == 0x3000
  }

  predicate IsDigit(c: char) { '0' <= c <= '9' }

  predicate IsTokenChar(c: char) {
    'A' <= c <= 'Z' || 'a' <= c <= 'z' || IsDigit(c) || c == '.' || c == '_' || c == ':' || c == '-'
  }

  /** The documented alphabet, spelled out. */
  lemma Alphabet(c: char)
    ensures IsTokenChar(c) <==>
            || c in "ABCDEFGHIJKLMNOPQRSTUVWXYZ" || c in "abcdefghijklmnopqrstuvwxyz"
            || c in "0123456789" || c in "._:-"
  {}

  predicate Blank(s: string) { forall i | 0 <= i < |s| :: IsSpace(s[i]) }

  predicate Solid(s: string) { forall i | 0 <= i < |s| :: !IsSpace(s[i]) }

  predicate IsToken(s: string) { s != [] && forall i | 0 <= i < |s| :: IsTokenChar(s[i]) }

  predicate AllDigits(s: string) { forall i | 0 <= i < |s| :: IsDigit(s[i]) }

  predicate AllFiller(s: string) { forall i | 0 <= i < |s| :: s[i] == PADDING_CHARACTER }

  function Repeat(c: char, n: nat): (s: string)
    ensures |s| == n
  {
    seq(n, _ => c)
  }

  function UpperChar(c: char): char { if 'a' <= c <= 'z' then (c as int - 32) as char else c }

  function LowerChar(c: char): char { if 'A' <= c <= 'Z' then (c as int + 32) as char else c }

  function Upper(s: string): (r: string)
    ensures |r| == |s|
  {
    seq(|s|, i requires 0 <= i < |s| => UpperChar(s[i]))
  }

  function Lower(s: string): (r: string)
    ensures |r| == |s|
  {
    seq(|s|, i requires 0 <= i < |s| => LowerChar(s[i]))
  }

  /** Encoded length of one character in UTF-8. */
  function Utf8Width(c: char): nat {
    var n := c as int;
    if n < 0x80 then 1 else if n < 0x800 then 2 else if n < 0x10000 then 3 else 4
  }

  /** `len(s.encode("utf-8"))`. */
  function Utf8Length(s: string): nat {
    if s == [] then 0 else Utf8Length(s[..|s| - 1]) + Utf8Width(s[|s| - 1])
  }

  predicate Ascii(s: string) { forall i | 0 <= i < |s| :: s[i] as int < 0x80 }

  lemma {:induction false} AsciiLength(s: string)
    requires Ascii(s)
    ensures Utf8Length(s) == |s|
  {
    if s != [] { AsciiLength(s[..|s| - 1]); }
  }

  // ------------------------------------------------------------- decimals

  function DigitChar(d: nat): char
    requires d < 10
  {
    ('0' as int + d) as char
  }

  /** `str(n)` for a natural number. */
  function Decimal(n: nat): string {
    if n < 10 then [DigitChar(n)] else Decimal(n / 10) + [DigitChar(n % 10)]
  }

  /** `int(s)` for a string of digits. */
  function Value(s: string): nat
    requires AllDigits(s)
  {
    if s == [] then 0 else Value(s[..|s| - 1]) * 10 + (s[|s| - 1] as int - '0' as int)
  }

  /** `s.zfill(width)` for an unsigned digit string. */
  function ZFill(s: string, width: nat): string {
    if |s| >= width then s else Repeat('0', width - |s|) + s
  }

  lemma {:induction false} DecimalRoundTrip(n: nat)
    ensures Decimal(n) != [] && AllDigits(Decimal(n)) && Value(Decimal(n)) == n
  {
    if n < 10 {
      assert Decimal(n)[..0] == [];
      assert Value(Decimal(n)) == Value([]) * 10 + n;
    } else {
      DecimalRoundTrip(n / 10);
      assert Decimal(n)[..|Decimal(n)| - 1] == Decimal(n / 10);
    }
  }

  /** No shorter decimal than `str` gives. */
  lemma {:induction false} DecimalShortest(s: string)
    requires AllDigits(s) && s != []
    ensures |Decimal(Value(s))| <= |s|
  {
    if |s| == 1 {
      assert s[..0] == [];
    } else if Value(s) >= 10 {
      DecimalShortest(s[..|s| - 1]);
    }
  }

  lemma {:induction false} ValueOfZeros(k: nat)
    ensures AllDigits(Repeat('0', k)) && Value(Repeat('0', k)) == 0
  {
    if k > 0 {
      ValueOfZeros(k - 1);
      assert Repeat('0', k)[..k - 1] == Repeat('0', k - 1);
    }
  }

  lemma {:induction false} LeadingZeros(k: nat, s: string)
    requires AllDigits(s)
    ensures AllDigits(Repeat('0', k) + s) && Value(Repeat('0', k) + s) == Value(s)
  {
    var z := Repeat('0', k);
    if s == [] {
      assert z + s == z;
      ValueOfZeros(k);
    } else {
      LeadingZeros(k, s[..|s| - 1]);
      assert (z + s)[..|z + s| - 1] == z + s[..|s| - 1];
    }
  }

  // ---------------------------------------------------------- correlation

  predicate IsDirection(direction: string) { direction == "request" || direction == "response" }

  datatype Key = Key(experiment: string, run: string, sequence: nat)

  /** Scientific identity of one interaction; `Valid` is the `__post_init__` check. */
  datatype Correlation = Correlation(experiment: string, run: string, sequence: nat) {
    predicate Valid() { IsToken(experiment) && IsToken(run) }

    /** `str` raises for longer sequence numbers. */
    predicate Printable() { |Decimal(sequence)| <= MAX_INT_DIGITS }

    function SequenceToken(): string { ZFill(Decimal(sequence), SEQUENCE_DIGITS) }

    function ToKey(): Key { Key(Upper(experiment), run, sequence) }

    function TxnText(direction: string): string {
      "fam-" + Lower(experiment) + "-" + Lower(run) + "-" + direction + "-" + SequenceToken()
    }

    /** Any direction other than the two names raises. */
    function TxnId(direction: string): Option<string> {
      if IsDirection(direction) && Printable() then Some(TxnText(direction)) else None
    }
  }

  lemma SequenceTokenValue(c: Correlation)
    ensures c.SequenceToken() != [] && AllDigits(c.SequenceToken()) && Value(c.SequenceToken()) == c.sequence
  {
    DecimalRoundTrip(c.sequence);
    var d := Decimal(c.sequence);
    if |d| < SEQUENCE_DIGITS { LeadingZeros(SEQUENCE_DIGITS - |d|, d); }
  }

  /** The token has five digits at least, and longer numbers are written as they are. */
  lemma SequenceTokenWidth(c: Correlation)
    ensures |c.SequenceToken()| >= SEQUENCE_DIGITS == 5
    ensures |c.SequenceToken()| > SEQUENCE_DIGITS ==> c.SequenceToken() == Decimal(c.sequence)
  {
    assert Decimal(c.sequence) != [] by { DecimalRoundTrip(c.sequence); }
  }

  /** Within one run the transaction id determines direction and sequence, for
      sequence numbers of any size. */
  lemma TxnIdInjectiveInRun(experiment: string, run: string, s1: nat, s2: nat, d1: string, d2: string)
    requires IsDirection(d1) && IsDirection(d2)
    requires Correlation(experiment, run, s1).TxnText(d1) == Correlation(experiment, run, s2).TxnText(d2)
    ensures d1 == d2 && s1 == s2
  {
    var c1, c2 := Correlation(experiment, run, s1), Correlation(experiment, run, s2);
    var prefix := "fam-" + Lower(experiment) + "-" + Lower(run) + "-";
    var t1, t2 := d1 + "-" + c1.SequenceToken(), d2 + "-" + c2.SequenceToken();
    var x1, x2 := c1.TxnText(d1), c2.TxnText(d2);
    assert x1 == prefix + t1 && x2 == prefix + t2;
    assert t1 == x1[|prefix|..] && t2 == x2[|prefix|..];
    DirectionEnds(d1, d2, c1.SequenceToken(), c2.SequenceToken());
    SequenceTokenValue(c1);
    SequenceTokenValue(c2);
  }

  lemma DirectionEnds(d1: string, d2: string, x: string, y: string)
    requires IsDirection(d1) && IsDirection(d2)
    requires d1 + "-" + x == d2 + "-" + y
    ensures d1 == d2 && x == y
  {
    var s := d1 + "-" + x;
    assert s[2] == d1[2] && s[2] == d2[2];
    assert d1 == d2;
    assert x == s[|d1| + 1..] && y == s[|d2| + 1..];
  }

  /** For one sequence and direction the id tells two runs of an experiment apart
      unless their names differ in case only. */
  lemma TxnRunsIff(experiment: string, r1: string, r2: string, n: nat, direction: string)
    ensures Correlation(experiment, r1, n).TxnText(direction) == Correlation(experiment, r2, n).TxnText(direction) <==>
            Lower(r1) == Lower(r2)
  {
    var front := "fam-" + Lower(experiment) + "-";
    var back := "-" + direction + "-" + Correlation(experiment, r1, n).SequenceToken();
    assert Correlation(experiment, r1, n).TxnText(direction) == front + (Lower(r1) + back);
    assert Correlation(experiment, r2, n).TxnText(direction) == front + (Lower(r2) + back);
    SameMiddle(front, Lower(r1), Lower(r2), back);
  }

  /** And two experiments under one run. */
  lemma TxnExperimentsIff(e1: string, e2: string, run: string, n: nat, direction: string)
    ensures Correlation(e1, run, n).TxnText(direction) == Correlation(e2, run, n).TxnText(direction) <==>
            Lower(e1) == Lower(e2)
  {
    var back := "-" + Lower(run) + "-" + direction + "-" + Correlation(e1, run, n).SequenceToken();
    assert Correlation(e1, run, n).TxnText(direction) == "fam-" + (Lower(e1) + back);
    assert Correlation(e2, run, n).TxnText(direction) == "fam-" + (Lower(e2) + back);
    SameMiddle("fam-", Lower(e1), Lower(e2), back);
  }

  lemma SameMiddle(front: string, x: string, y: string, back: string)
    ensures front + (x + back) == front + (y + back) <==> x == y
  {
    var s, t := front + (x + back), front + (y + back);
    if s == t {
      assert x == s[|front|..|front| + |x|] && y == t[|front|..|front| + |y|];
    }
  }

  /** Two correlations are one logical request exactly when run and sequence agree and
      the experiments differ in case at most. */
  lemma KeyIgnoresCase(c1: Correlation, c2: Correlation)
    ensures c1.ToKey() == c2.ToKey() <==>
            c1.run == c2.run && c1.sequence == c2.sequence && Lower(c1.experiment) == Lower(c2.experiment)
  {
    CaseFolds(c1.experiment, c2.experiment);
  }

  lemma CaseFolds(x: string, y: string)
    ensures Upper(x) == Upper(y) <==> Lower(x) == Lower(y)
  {
    if |x| == |y| {
      forall i | 0 <= i < |x| ensures Upper(x)[i] == Upper(y)[i] <==> Lower(x)[i] == Lower(y)[i] {}
    }
  }

  lemma Token421(c: Correlation)
    requires c.sequence == 421
    ensures c.SequenceToken() == "00421" && c.Printable()
  {
    assert Decimal(4) == "4" && Decimal(42) == "42" && Decimal(421) == "421";
    assert Repeat('0', 2) == "00";
  }

  lemma Envelope421(kind: string)
    ensures Envelope(kind, Correlation("e0", "e0-run-01", 421)) == "FAM/1 " + kind + " E0 " + "e0-run-01" + " 00421"
  {
    Token421(Correlation("e0", "e0-run-01", 421));
    assert Upper("e0") == "E0";
    assert "FAM/1 " == "FAM/1" + " ";
    assert " E0 " == " " + "E0" + " ";
    assert " 00421" == " " + "00421";
  }

  /** The body that the tests give as an example, and its acknowledgement. */
  lemma DocumentedBody()
    ensures var c := Correlation("e0", "e0-run-01", 421);
            && BuildRequest(c, None) == Some("FAM/1 " + "REQUEST" + " E0 " + "e0-run-01" + " 00421")
            && BuildAck(c, None) == Some("FAM/1 " + "ACK" + " E0 " + "e0-run-01" + " 00421")
  {
    Token421(Correlation("e0", "e0-run-01", 421));
    Envelope421("REQUEST");
    Envelope421("ACK");
  }

  /** And the transaction ids, for either direction. */
  lemma DocumentedTxnIds(direction: string)
    requires IsDirection(direction)
    ensures Correlation("E3", "run017", 421).TxnId(direction) ==
            Some("fam-" + "e3" + "-" + "run017" + "-" + direction + "-" + "00421")
  {
    Token421(Correlation("E3", "run017", 421));
    assert Lower("E3") == "e3";
    assert Lower("run017") == "run017";
  }

  /** The logical identity alone fixes both transaction ids: two spellings of the
      experiment that share a key share their ids. */
  lemma KeyDeterminesTxnId(c1: Correlation, c2: Correlation, direction: string)
    requires c1.ToKey() == c2.ToKey()
    ensures c1.TxnText(direction) == c2.TxnText(direction) && c1.TxnId(direction) == c2.TxnId(direction)
    ensures Lower(c1.ToKey().experiment) == Lower(c1.experiment)
  {
    forall i | 0 <= i < |c1.experiment|
      ensures LowerChar(Upper(c1.experiment)[i]) == LowerChar(c1.experiment[i])
      ensures LowerChar(Upper(c2.experiment)[i]) == LowerChar(c2.experiment[i])
    {}
    assert Lower(Upper(c1.experiment)) == Lower(c1.experiment);
    assert Lower(Upper(c2.experiment)) == Lower(c2.experiment);
  }

  /** Across runs the ids are not injective: run ids are lower-cased in the
      transaction id and kept as they are in the key. */
  lemma TxnIdsCollideAcrossRuns(n: nat)
    ensures Correlation("E3", "R", n).Valid() && Correlation("E3", "r", n).Valid()
    ensures Correlation("E3", "R", n).ToKey() != Correlation("E3", "r", n).ToKey()
    ensures Correlation("E3", "R", n).TxnText("response") == Correlation("E3", "r", n).TxnText("response")
    ensures Correlation("E3", "R", n).TxnId("response") == Correlation("E3", "r", n).TxnId("response")
  {
    assert "R"[0] != "r"[0];
    assert Lower("R") == Lower("r");
  }

  // --------------------------------------------------------------- builders

  function Envelope(kind: string, c: Correlation): string {
    PROTOCOL_TOKEN + " " + kind + " " + Upper(c.experiment) + " " + c.run + " " + c.SequenceToken()
  }

  /** `None` is the MessageFormatError for an envelope that leaves no room for
      the separator; without a size the envelope is returned as it is. */
  function Pad(envelope: string, bodyBytes: Option<int>): Option<string> {
    if bodyBytes.None? then Some(envelope)
    else
      var encoded := Utf8Length(envelope);
      if encoded > bodyBytes.value - 1 then None
      else Some(envelope + " " + Repeat(PADDING_CHARACTER, bodyBytes.value - encoded - 1))
  }

  /** `None` for either exception. */
  function Build(kind: string, c: Correlation, bodyBytes: Option<int>): Option<string> {
    if c.Printable() then Pad(Envelope(kind, c), bodyBytes) else None
  }

  function BuildRequest(c: Correlation, bodyBytes: Option<int>): Option<string> { Build(REQUEST_KEYWORD, c, bodyBytes) }

  function BuildAck(c: Correlation, bodyBytes: Option<int>): Option<string> { Build(ACK_KEYWORD, c, bodyBytes) }

  // ---------------------------------------------------------------- parsing

  function TrimLeft(s: string): string {
    if s != [] && IsSpace(s[0]) then TrimLeft(s[1..]) else s
  }

  function TrimRight(s: string): string {
    if s != [] && IsSpace(s[|s| - 1]) then TrimRight(s[..|s| - 1]) else s
  }

  function Strip(s: string): string { TrimRight(TrimLeft(s)) }

  /** Length of the leading run of non-space characters. */
  function WordLength(s: string): (k: nat)
    ensures k <= |s| && Solid(s[..k]) && (k < |s| ==> IsSpace(s[k]))
  {
    if s == [] || IsSpace(s[0]) then 0 else 1 + WordLength(s[1..])
  }

  /** Maximal runs of non-space characters, in order. */
  function Words(s: string): seq<string>
    decreases |s|
  {
    if s == [] then []
    else if IsSpace(s[0]) then Words(s[1..])
    else
      var k := WordLength(s);
      [s[..k]] + Words(s[k..])
  }

  datatype Parsed = Parsed(kind: string, correlation: Correlation, padded: bool) {
    predicate IsRequest() { kind == REQUEST_KEYWORD }
    predicate IsAck() { kind == ACK_KEYWORD }
  }

  /** `None`, an uncaught ValueError of `int`, or a message. */
  datatype Parsing = Ignored | Raised | Accepted(message: Parsed)

  function ParseFields(f: seq<string>): Parsing {
    if (|f| == 5 || (|f| == 6 && AllFiller(f[5]))) && f[0] == PROTOCOL_TOKEN &&
       (f[1] == REQUEST_KEYWORD || f[1] == ACK_KEYWORD) &&
       IsToken(f[2]) && IsToken(f[3]) && f[4] != [] && AllDigits(f[4])
    then
      if |f[4]| > MAX_INT_DIGITS then Raised
      else Accepted(Parsed(f[1], Correlation(f[2], f[3], Value(f[4])), |f| == 6))
    else Ignored
  }

  /** The body parser. That it decides the source's regular expression on the
      stripped body is `ParseDecidesRegex`. */
  function Parse(body: string): Parsing { ParseFields(Words(Strip(body))) }

  // ----------------------------------------- the regular expression, declared

  /** The groups of one match of the body expression: `w0`..`w3` are the blank
      separators, `padBlank + padFiller` is the optional padding group. */
  datatype Match = Match(
    w0: string, kind: string, w1: string, experiment: string, w2: string, run: string,
    w3: string, digits: string, padBlank: string, padFiller: string)
  {
    function Text(): string {
      PROTOCOL_TOKEN + (w0 + (kind + (w1 + (experiment + (w2 + (run + (w3 + (digits + (padBlank + padFiller)))))))))
    }

    predicate WellFormed() {
      && w0 != [] && Blank(w0) && w1 != [] && Blank(w1) && w2 != [] && Blank(w2) && w3 != [] && Blank(w3)
      && (kind == REQUEST_KEYWORD || kind == ACK_KEYWORD)
      && IsToken(experiment) && IsToken(run) && digits != [] && AllDigits(digits)
      && Blank(padBlank) && AllFiller(padFiller) && (padBlank == [] ==> padFiller == [])
    }

    /** What the groups are turned into: `int` refuses too many digits. */
    function Result(): Parsing
      requires WellFormed()
    {
      if |digits| > MAX_INT_DIGITS then Raised
      else Accepted(Parsed(kind, Correlation(experiment, run, Value(digits)), padBlank + padFiller != []))
    }
  }

  predicate IsMatch(s: string, m: Match) { m.WellFormed() && s == m.Text() }

  // ------------------------------------------------------------ strip lemmas

  lemma {:induction false} TrimLeftDrops(a: string, s: string)
    requires Blank(a) && (s == [] || !IsSpace(s[0]))
    ensures TrimLeft(a + s) == s
  {
    if a == [] {
      assert a + s == s;
    } else {
      TrimLeftDrops(a[1..], s);
      assert (a + s)[1..] == a[1..] + s;
    }
  }

  lemma {:induction false} TrimRightDrops(s: string, b: string)
    requires Blank(b) && (s == [] || !IsSpace(s[|s| - 1]))
    ensures TrimRight(s + b) == s
  {
    if b == [] {
      assert s + b == s;
    } else {
      TrimRightDrops(s, b[..|b| - 1]);
      assert (s + b)[..|s + b| - 1] == s + b[..|b| - 1];
    }
  }

  lemma {:induction false} TrimRightEdge(s: string)
    ensures TrimRight(s) <= s
    ensures TrimRight(s) == [] || !IsSpace(TrimRight(s)[|TrimRight(s)| - 1])
  {
    if s != [] && IsSpace(s[|s| - 1]) { TrimRightEdge(s[..|s| - 1]); }
  }

  lemma {:induction false} TrimLeftEdge(s: string)
    ensures TrimLeft(s) == [] || !IsSpace(TrimLeft(s)[0])
  {
    if s != [] && IsSpace(s[0]) { TrimLeftEdge(s[1..]); }
  }

  predicate Stripped(s: string) { s == [] || (!IsSpace(s[0]) && !IsSpace(s[|s| - 1])) }

  lemma StripIsStripped(s: string)
    ensures Stripped(Strip(s))
  {
    TrimLeftEdge(s);
    TrimRightEdge(TrimLeft(s));
  }

  /** Stripping removes exactly the blank ends. */
  lemma StripUnique(a: string, s: string, b: string)
    requires Blank(a) && Blank(b) && Stripped(s) && s != []
    ensures Strip(a + (s + b)) == s
  {
    TrimLeftDrops(a, s + b);
    TrimRightDrops(s, b);
  }

  // ------------------------------------------------------------- word lemmas

  lemma {:induction false} WordLengthExact(w: string, rest: string)
    requires Solid(w) && (rest == [] || IsSpace(rest[0]))
    ensures WordLength(w + rest) == |w|
  {
    if w == [] {
      assert w + rest == rest;
    } else {
      WordLengthExact(w[1..], rest);
      assert (w + rest)[1..] == w[1..] + rest;
    }
  }

  lemma {:induction false} WordsSkipBlank(sp: string, rest: string)
    requires Blank(sp)
    ensures Words(sp + rest) == Words(rest)
  {
    if sp == [] {
      assert sp + rest == rest;
    } else {
      WordsSkipBlank(sp[1..], rest);
      assert (sp + rest)[1..] == sp[1..] + rest;
    }
  }

  lemma WordsCons(w: string, sp: string, rest: string)
    requires w != [] && Solid(w) && sp != [] && Blank(sp)
    ensures Words(w + (sp + rest)) == [w] + Words(rest)
  {
    var s := w + (sp + rest);
    WordLengthExact(w, sp + rest);
    assert s[..|w|] == w && s[|w|..] == sp + rest;
    WordsSkipBlank(sp, rest);
  }

  lemma WordsSingle(w: string)
    requires w != [] && Solid(w)
    ensures Words(w) == [w]
  {
    WordLengthExact(w, []);
    assert w + [] == w;
    assert w[..|w|] == w && w[|w|..] == [];
  }

  predicate IsWord(w: string) { w != [] && Solid(w) }

  predicate IsGap(w: string) { w != [] && Blank(w) }

  lemma {:induction false} SplitBlank(s: string) returns (sp: string, rest: string)
    ensures s == sp + rest && Blank(sp) && (rest == [] || !IsSpace(rest[0]))
    ensures s != [] && IsSpace(s[0]) ==> sp != []
  {
    if s != [] && IsSpace(s[0]) {
      sp, rest := SplitBlank(s[1..]);
      sp := [s[0]] + sp;
    } else {
      sp, rest := [], s;
    }
  }

  /** Peels the first word of a text that has at least two. */
  lemma WordsUncons(s: string) returns (sp: string, rest: string)
    requires s != [] && Stripped(s) && |Words(s)| >= 2
    ensures IsGap(sp) && s == Words(s)[0] + (sp + rest)
    ensures Words(rest) == Words(s)[1..]
    ensures rest != [] && Stripped(rest)
  {
    var k := WordLength(s);
    var tail := s[k..];
    assert s == s[..k] + tail;
    assert Words(s) == [s[..k]] + Words(tail);
    assert Words("") == [];
    sp, rest := SplitBlank(tail);
    WordsSkipBlank(sp, rest);
    assert rest != [];
    assert s[|s| - 1] == tail[|tail| - 1] == rest[|rest| - 1];
  }

  lemma {:induction false} NoWords(s: string)
    requires Words(s) == []
    ensures Blank(s)
  {
    if s != [] { NoWords(s[1..]); }
  }

  lemma WordsOfOne(s: string)
    requires Stripped(s) && |Words(s)| == 1
    ensures s == Words(s)[0]
  {
    var k := WordLength(s);
    NoWords(s[k..]);
    assert s[..k] == s;
  }

  // -------------------------------------------------- parser == expression

  /** Four words with their separators, then whatever follows. */
  function Spread(a: string, w0: string, b: string, w1: string, c: string, w2: string, d: string, w3: string,
                  rest: string): string
  {
    a + (w0 + (b + (w1 + (c + (w2 + (d + (w3 + rest)))))))
  }

  lemma SpreadWords(a: string, w0: string, b: string, w1: string, c: string, w2: string, d: string, w3: string,
                    rest: string)
    requires IsWord(a) && IsWord(b) && IsWord(c) && IsWord(d)
    requires IsGap(w0) && IsGap(w1) && IsGap(w2) && IsGap(w3)
    ensures Words(Spread(a, w0, b, w1, c, w2, d, w3, rest)) == [a, b, c, d] + Words(rest)
  {
    WordsCons(d, w3, rest);
    WordsCons(c, w2, d + (w3 + rest));
    WordsCons(b, w1, c + (w2 + (d + (w3 + rest))));
    WordsCons(a, w0, b + (w1 + (c + (w2 + (d + (w3 + rest))))));
  }

  function Tail(m: Match): string { m.digits + (m.padBlank + m.padFiller) }

  lemma TextIsSpread(m: Match)
    ensures m.Text() == Spread(PROTOCOL_TOKEN, m.w0, m.kind, m.w1, m.experiment, m.w2, m.run, m.w3, Tail(m))
  {}

  lemma SpreadLast(a: string, w0: string, b: string, w1: string, c: string, w2: string, d: string, w3: string,
                   rest: string)
    requires rest != []
    ensures Spread(a, w0, b, w1, c, w2, d, w3, rest) != []
    ensures var s := Spread(a, w0, b, w1, c, w2, d, w3, rest); s[|s| - 1] == rest[|rest| - 1]
  {
    var front := a + w0 + b + w1 + c + w2 + d + w3;
    assert Spread(a, w0, b, w1, c, w2, d, w3, rest) == front + rest;
  }

  lemma TailWords(m: Match)
    requires m.WellFormed() && Stripped(m.Text())
    ensures m.padBlank == [] ==> Words(Tail(m)) == [m.digits]
    ensures m.padBlank != [] ==> Words(Tail(m)) == [m.digits, m.padFiller]
  {
    if m.padBlank == [] {
      assert Tail(m) == m.digits;
      WordsSingle(m.digits);
    } else {
      TextIsSpread(m);
      SpreadLast(PROTOCOL_TOKEN, m.w0, m.kind, m.w1, m.experiment, m.w2, m.run, m.w3, Tail(m));
      WordsCons(m.digits, m.padBlank, m.padFiller);
      WordsSingle(m.padFiller);
    }
  }

  lemma TextFields(m: Match)
    requires m.WellFormed() && Stripped(m.Text())
    ensures Words(m.Text()) == [PROTOCOL_TOKEN, m.kind, m.experiment, m.run] + Words(Tail(m))
  {
    TextIsSpread(m);
    assert IsWord(PROTOCOL_TOKEN) && IsWord(m.kind) && IsWord(m.experiment) && IsWord(m.run);
    SpreadWords(PROTOCOL_TOKEN, m.w0, m.kind, m.w1, m.experiment, m.w2, m.run, m.w3, Tail(m));
  }

  function Fields(m: Match): seq<string> {
    [PROTOCOL_TOKEN, m.kind, m.experiment, m.run, m.digits] + (if m.padBlank == [] then [] else [m.padFiller])
  }

  lemma TextToFields(m: Match)
    requires m.WellFormed() && Stripped(m.Text())
    ensures Words(m.Text()) == Fields(m)
  {
    TextFields(m);
    TailWords(m);
  }

  lemma FieldsParse(m: Match)
    requires m.WellFormed()
    ensures ParseFields(Fields(m)) == m.Result()
  {}

  lemma ParseComplete(s: string, m: Match)
    requires Stripped(s) && IsMatch(s, m)
    ensures ParseFields(Words(s)) == m.Result()
  {
    TextToFields(m);
    FieldsParse(m);
  }

  lemma ParseSound(s: string) returns (m: Match)
    requires Stripped(s) && !ParseFields(Words(s)).Ignored?
    ensures IsMatch(s, m)
  {
    var f := Words(s);
    var w0, w1, w2, w3, rest := Unspread(s);
    if |f| == 5 {
      WordsOfOne(rest);
      m := Match(w0, f[1], w1, f[2], w2, f[3], w3, f[4], [], []);
      assert f[4] + ([] + []) == rest;
    } else {
      var w4, last := WordsUncons(rest);
      WordsOfOne(last);
      m := Match(w0, f[1], w1, f[2], w2, f[3], w3, f[4], w4, f[5]);
    }
  }

  lemma Unspread(s: string) returns (w0: string, w1: string, w2: string, w3: string, rest: string)
    requires Stripped(s) && |Words(s)| >= 5
    ensures IsGap(w0) && IsGap(w1) && IsGap(w2) && IsGap(w3) && rest != [] && Stripped(rest)
    ensures s == Spread(Words(s)[0], w0, Words(s)[1], w1, Words(s)[2], w2, Words(s)[3], w3, rest)
    ensures Words(rest) == Words(s)[4..]
  {
    var f, middle := Words(s), [];
    w0, w1, middle := WordsUncons2(s);
    w2, w3, rest := WordsUncons2(middle);
    assert Words(middle)[0] == f[2] && Words(middle)[1] == f[3] && Words(rest) == f[2..][2..] == f[4..];
  }

  lemma WordsUncons2(s: string) returns (w0: string, w1: string, rest: string)
    requires s != [] && Stripped(s) && |Words(s)| >= 3
    ensures IsGap(w0) && IsGap(w1) && rest != [] && Stripped(rest)
    ensures s == Words(s)[0] + (w0 + (Words(s)[1] + (w1 + rest)))
    ensures Words(rest) == Words(s)[2..]
  {
    var r;
    w0, r := WordsUncons(s);
    w1, rest := WordsUncons(r);
  }

  /** The parser ignores exactly the bodies whose stripped text does not match the
      expression; on the others its result is read off any match, and it raises
      exactly when the sequence has more digits than the interpreter converts. */
  lemma ParseDecidesRegex(body: string)
    ensures !Parse(body).Ignored? <==> exists m :: IsMatch(Strip(body), m)
    ensures forall m | IsMatch(Strip(body), m) :: Parse(body) == m.Result()
    ensures Parse(body).Raised? <==> exists m :: IsMatch(Strip(body), m) && |m.digits| > MAX_INT_DIGITS
  {
    StripIsStripped(body);
    forall m | IsMatch(Strip(body), m) ensures Parse(body) == m.Result() {
      ParseComplete(Strip(body), m);
    }
    if !Parse(body).Ignored? {
      var m := ParseSound(Strip(body));
    }
  }

  // -------------------------------------------------------------- round trip

  lemma EnvelopeAscii(kind: string, c: Correlation)
    requires c.Valid() && Ascii(kind)
    ensures Ascii(Envelope(kind, c))
  {
    SequenceTokenValue(c);
    assert forall i | 0 <= i < |c.experiment| :: IsTokenChar(c.experiment[i]);
    assert Ascii(Upper(c.experiment)) && Ascii(c.run) && Ascii(c.SequenceToken());
  }

  function EnvelopeMatch(kind: string, c: Correlation, padBlank: string, padFiller: string): Match {
    Match(" ", kind, " ", Upper(c.experiment), " ", c.run, " ", c.SequenceToken(), padBlank, padFiller)
  }

  lemma UpperKeepsTokens(s: string)
    requires IsToken(s)
    ensures IsToken(Upper(s)) && Upper(Upper(s)) == Upper(s)
  {
    forall i | 0 <= i < |s| ensures IsTokenChar(Upper(s)[i]) && UpperChar(Upper(s)[i]) == Upper(s)[i] {
      assert IsTokenChar(s[i]);
    }
  }

  lemma EnvelopeText(kind: string, c: Correlation, padBlank: string, padFiller: string)
    ensures EnvelopeMatch(kind, c, padBlank, padFiller).Text() == Envelope(kind, c) + (padBlank + padFiller)
  {}

  function ParsedBack(kind: string, c: Correlation, padded: bool): Parsed {
    Parsed(kind, Correlation(Upper(c.experiment), c.run, c.sequence), padded)
  }

  lemma ParseMatchText(m: Match, tail: string)
    requires m.WellFormed() && Stripped(m.Text()) && m.Text() != [] && Blank(tail)
    ensures Parse(m.Text() + tail) == m.Result()
  {
    StripUnique([], m.Text(), tail);
    assert [] + (m.Text() + tail) == m.Text() + tail;
    ParseComplete(m.Text(), m);
  }

  lemma TokenLength(c: Correlation)
    ensures |c.SequenceToken()| <= MAX_INT_DIGITS <==> c.Printable()
  {}

  lemma EnvelopeMatchResult(kind: string, c: Correlation, blank: string, filler: string)
    requires c.Valid() && c.Printable() && (kind == REQUEST_KEYWORD || kind == ACK_KEYWORD)
    requires Blank(blank) && AllFiller(filler) && (blank == [] <==> filler == [])
    ensures EnvelopeMatch(kind, c, blank, filler).WellFormed()
    ensures EnvelopeMatch(kind, c, blank, filler).Result() == Accepted(ParsedBack(kind, c, filler != []))
  {
    UpperKeepsTokens(c.experiment);
    SequenceTokenValue(c);
    TokenLength(c);
  }

  /** Filler of any length, or trailing blanks, leave the parse intact. */
  lemma ParseEnvelope(kind: string, c: Correlation, blank: string, filler: string, tail: string)
    requires c.Valid() && c.Printable() && (kind == REQUEST_KEYWORD || kind == ACK_KEYWORD)
    requires Blank(blank) && AllFiller(filler) && (blank == [] <==> filler == []) && Blank(tail)
    ensures Parse(Envelope(kind, c) + (blank + filler) + tail) == Accepted(ParsedBack(kind, c, filler != []))
  {
    EnvelopeMatchResult(kind, c, blank, filler);
    EnvelopeEdges(kind, c, blank, filler);
    EnvelopeText(kind, c, blank, filler);
    ParseMatchText(EnvelopeMatch(kind, c, blank, filler), tail);
  }

  /** Padding appends one separator and filler up to the exact byte count. */
  lemma PadShape(envelope: string, bodyBytes: Option<int>)
    returns (blank: string, filler: string, tail: string)
    requires Ascii(envelope)
    ensures Blank(blank) && AllFiller(filler) && (blank == [] <==> filler == []) && Blank(tail)
    ensures Pad(envelope, bodyBytes).Some? <==> bodyBytes.None? || |envelope| < bodyBytes.value
    ensures Pad(envelope, bodyBytes).Some? ==>
              && Pad(envelope, bodyBytes).value == envelope + (blank + filler) + tail
              && (filler != [] <==> bodyBytes.Some? && bodyBytes.value > |envelope| + 1)
              && (bodyBytes.Some? ==> Utf8Length(Pad(envelope, bodyBytes).value) == bodyBytes.value)
  {
    AsciiLength(envelope);
    blank, filler, tail := [], [], [];
    if bodyBytes.Some? && bodyBytes.value > |envelope| {
      filler := Repeat(PADDING_CHARACTER, bodyBytes.value - |envelope| - 1);
      if filler == [] { tail := " "; } else { blank := " "; }
      AsciiLength(Pad(envelope, bodyBytes).value);
    }
  }

  lemma ParsedBackKey(kind: string, c: Correlation, padded: bool)
    requires c.Valid()
    ensures ParsedBack(kind, c, padded).correlation.ToKey() == c.ToKey()
    ensures ParsedBack(kind, c, padded).correlation.Valid()
  {
    UpperKeepsTokens(c.experiment);
  }

  /** Building and parsing are inverse: every size that leaves room for the
      separator yields a body of exactly that many bytes carrying the same key, and
      every smaller size is refused, as are sequence numbers `str` cannot print. */
  lemma BuildParse(kind: string, c: Correlation, bodyBytes: Option<int>)
    requires c.Valid() && (kind == REQUEST_KEYWORD || kind == ACK_KEYWORD)
    ensures Build(kind, c, bodyBytes).Some? <==>
            c.Printable() && (bodyBytes.None? || |Envelope(kind, c)| < bodyBytes.value)
    ensures Build(kind, c, bodyBytes).Some? ==>
              var body := Build(kind, c, bodyBytes).value;
              && (bodyBytes.Some? ==> Utf8Length(body) == bodyBytes.value)
              && Parse(body) ==
                 Accepted(ParsedBack(kind, c, bodyBytes.Some? && bodyBytes.value > |Envelope(kind, c)| + 1))
              && Parse(body).message.correlation.ToKey() == c.ToKey()
  {
    EnvelopeAscii(kind, c);
    var blank, filler, tail := PadShape(Envelope(kind, c), bodyBytes);
    if c.Printable() {
      ParseEnvelope(kind, c, blank, filler, tail);
      ParsedBackKey(kind, c, filler != []);
    }
  }

  lemma EnvelopeEdges(kind: string, c: Correlation, blank: string, filler: string)
    requires c.Valid() && AllFiller(filler)
    requires blank == [] ==> filler == []
    requires blank != [] ==> filler != []
    ensures Stripped(EnvelopeMatch(kind, c, blank, filler).Text())
    ensures EnvelopeMatch(kind, c, blank, filler).Text() != []
  {
    EnvelopeText(kind, c, blank, filler);
    SequenceTokenValue(c);
    var text := EnvelopeMatch(kind, c, blank, filler).Text();
    var front := PROTOCOL_TOKEN + " " + kind + " " + Upper(c.experiment) + " " + c.run + " ";
    assert text == front + (c.SequenceToken() + (blank + filler));
    assert text[0] == 'F';
    if filler != [] {
      assert text[|text| - 1] == filler[|filler| - 1];
    } else {
      assert c.SequenceToken() + (blank + filler) == c.SequenceToken();
      assert text[|text| - 1] == c.SequenceToken()[|c.SequenceToken()| - 1];
    }
  }
}
