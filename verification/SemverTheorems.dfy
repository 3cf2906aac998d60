/** What version parsing, comparison and ranges guarantee. */
module SemverTheorems {
  import opened Wrappers
  import opened Decimal
  import opened Semver

  // ---- parsing -----------------------------------------------------------------------------------------

  lemma {:induction false} BeforeStops(s: string, c: char)
    ensures c !in Before(s, c) && forall d :: d in Before(s, c) ==> d in s
  {
    if s != [] && s[0] != c {
      BeforeStops(s[1..], c);
    }
  }

  lemma {:induction false} BeforeAll(s: string, c: char)
    requires c !in s
    ensures Before(s, c) == s
  {
    if s != [] {
      BeforeAll(s[1..], c);
    }
  }

  lemma {:induction false} BeforeFirst(s: string, c: char, rest: string)
    requires c !in s
    ensures Before(s + [c] + rest, c) == s
  {
    if s == [] {
      assert s + [c] + rest == [c] + rest;
    } else {
      assert (s + [c] + rest)[1..] == s[1..] + [c] + rest;
      BeforeFirst(s[1..], c, rest);
    }
  }

  lemma {:induction false} PartsComeFrom(s: string, c: char)
    ensures forall p, d :: p in Split(s, c) && d in p ==> d in s
  {
    if s != [] {
      PartsComeFrom(s[1..], c);
    }
  }

  /** A component of a parsed version is never negative: a sign can only be a plus or a minus, and everything from
      the first of either has been cut off before the numbers are read. */
  lemma ParsedIsNatural(s: string)
    requires Parse(s).Success?
    ensures Natural(Parse(s).value)
  {
    BeforeStops(s, '+');
    BeforeStops(Before(s, '+'), '-');
    PartsComeFrom(Core(s), '.');
    var parts := Split(Core(s), '.');
    forall p | p in parts && Atoi(p).Some? ensures 0 <= Atoi(p).value <= MAX_INT {
    }
    assert parts[0] in parts && parts[1] in parts && parts[2] in parts;
  }

  /** How a triple is written. */
  function Format(t: Triple): string
    requires Natural(t)
  {
    Pad(t.major, 1) + "." + Pad(t.minor, 1) + "." + Pad(t.patch, 1)
  }

  lemma {:induction false} SplitWhole(s: string, c: char)
    requires c !in s
    ensures Split(s, c) == [s]
  {
    if s != [] {
      SplitWhole(s[1..], c);
      assert s == [s[0]] + s[1..];
    }
  }

  lemma {:induction false} SplitFirst(s: string, c: char, rest: string)
    requires c !in s
    ensures Split(s + [c] + rest, c) == [s] + Split(rest, c)
  {
    if s == [] {
      assert s + [c] + rest == [c] + rest;
      assert ([c] + rest)[1..] == rest;
    } else {
      assert (s + [c] + rest)[1..] == s[1..] + [c] + rest;
      SplitFirst(s[1..], c, rest);
      assert s == [s[0]] + s[1..];
      assert ([s[1..]] + Split(rest, c))[1..] == Split(rest, c);
    }
  }

  lemma AtoiOfPad(n: nat)
    requires n <= MAX_INT
    ensures Atoi(Pad(n, 1)) == Some(n)
  {
    ValueOfPad(n, 1);
    var s := Pad(n, 1);
    assert s[0] in s;
  }

  /** Reading back what was written gives the same version, whatever pre-release or build metadata follows. */
  lemma ParseOfFormat(t: Triple, suffix: string)
    requires Natural(t)
    requires suffix == "" || suffix[0] == '-' || suffix[0] == '+'
    ensures Parse(Format(t) + suffix) == Success(t)
  {
    FormatChars(t);
    CoreOf(Format(t), suffix);
    SplitOfFormat(t);
    AtoiOfPad(t.major);
    AtoiOfPad(t.minor);
    AtoiOfPad(t.patch);
  }

  lemma SplitOfFormat(t: Triple)
    requires Natural(t)
    ensures Split(Format(t), '.') == [Pad(t.major, 1), Pad(t.minor, 1), Pad(t.patch, 1)]
  {
    var a, b, c := Pad(t.major, 1), Pad(t.minor, 1), Pad(t.patch, 1);
    assert Format(t) == a + ['.'] + (b + ['.'] + c);
    SplitFirst(a, '.', b + ['.'] + c);
    SplitFirst(b, '.', c);
    SplitWhole(c, '.');
  }

  lemma CoreOf(s: string, suffix: string)
    requires '+' !in s && '-' !in s
    requires suffix == "" || suffix[0] == '-' || suffix[0] == '+'
    ensures Core(s + suffix) == s
  {
    if suffix == "" {
      assert s + suffix == s;
      BeforeAll(s, '+');
      BeforeAll(s, '-');
    } else if suffix[0] == '+' {
      assert s + suffix == s + ['+'] + suffix[1..];
      BeforeFirst(s, '+', suffix[1..]);
      BeforeAll(s, '-');
    } else {
      BeforeKeepsPrefix(s + ['-'], suffix[1..], '+');
      assert s + suffix == s + ['-'] + suffix[1..];
      BeforeFirst(s, '-', Before(suffix[1..], '+'));
    }
  }

  lemma {:induction false} BeforeKeepsPrefix(s: string, rest: string, c: char)
    requires c !in s
    ensures Before(s + rest, c) == s + Before(rest, c)
  {
    if s == [] {
      assert s + rest == rest;
    } else {
      assert (s + rest)[1..] == s[1..] + rest;
      BeforeKeepsPrefix(s[1..], rest, c);
    }
  }

  // ---- comparison --------------------------------------------------------------------------------------

  /** On the triples parsing produces, subtraction never wraps and comparison is precedence: negative, zero and
      positive are before, equal and after. */
  lemma CompareIsPrecedence(a: Triple, b: Triple)
    requires Natural(a) && Natural(b)
    ensures Compare(a, b) == if Precedes(a, b) then -1 else if a == b then 0 else 1
    ensures Compare(b, a) == -Compare(a, b)
  {
    NaturalsDoNotWrap(a.major, b.major);
    NaturalsDoNotWrap(a.minor, b.minor);
    NaturalsDoNotWrap(a.patch, b.patch);
  }

  lemma NaturalsDoNotWrap(m: int, n: int)
    requires 0 <= m <= MAX_INT && 0 <= n <= MAX_INT
    ensures Minus64(m, n) == m - n && Minus64(n, m) == n - m
  {
  }

  /** So comparison is a total order on them: any two compare, only equals are equal, and it is transitive. */
  lemma CompareIsTotalOrder(a: Triple, b: Triple, c: Triple)
    requires Natural(a) && Natural(b) && Natural(c)
    ensures Compare(a, b) <= 0 || Compare(b, a) <= 0
    ensures Compare(a, b) <= 0 && Compare(b, a) <= 0 ==> a == b
    ensures Compare(a, b) <= 0 && Compare(b, c) <= 0 ==> Compare(a, c) <= 0
    ensures Compare(a, b) < 0 && Compare(b, c) <= 0 ==> Compare(a, c) < 0
  {
    CompareIsPrecedence(a, b);
    CompareIsPrecedence(b, c);
    CompareIsPrecedence(a, c);
  }

  /** On any 64-bit integers subtraction is right, and has the right sign, exactly when the difference fits. */
  lemma SubtractionWrapsIffItDoesNotFit(a: int, b: int)
    requires Fits64(a) && Fits64(b)
    ensures Minus64(a, b) == a - b <==> Fits64(a - b)
    ensures Sign(Minus64(a, b)) == Sign(a - b) <==> Fits64(a - b)
  {
    var m := MAX_INT + 1;
    if a - b > MAX_INT {
      assert (a - b + m) % (2 * m) == a - b - m;
    } else if a - b < -m {
      assert (a - b + m) % (2 * m) == a - b + 3 * m;
    } else {
      assert (a - b + m) % (2 * m) == a - b + m;
    }
  }

  /** The difference of the first components that differ. */
  function Deciding(a: Triple, b: Triple): int {
    if a.major != b.major then a.major - b.major
    else if a.minor != b.minor then a.minor - b.minor
    else a.patch - b.patch
  }

  predicate AllFit(t: Triple) {
    Fits64(t.major) && Fits64(t.minor) && Fits64(t.patch)
  }

  /** The order rests on the sign being cut before numbers are read. On triples of any 64-bit integers, negative ones
      included, comparison is precedence if and only if the difference that decides fits in 64 bits. */
  lemma NegativesWouldBreakTheOrder(a: Triple, b: Triple)
    requires AllFit(a) && AllFit(b)
    ensures Compare(a, b) == (if Precedes(a, b) then -1 else if a == b then 0 else 1) <==> Fits64(Deciding(a, b))
  {
    SubtractionWrapsIffItDoesNotFit(a.major, b.major);
    SubtractionWrapsIffItDoesNotFit(a.minor, b.minor);
    SubtractionWrapsIffItDoesNotFit(a.patch, b.patch);
  }

  /** And there are triples for which it does not. */
  lemma SomeDifferencesDoNotFit()
    ensures exists a, b :: AllFit(a) && AllFit(b) && !Fits64(Deciding(a, b))
  {
    var a, b := Triple(MAX_INT, 0, 0), Triple(-1, 0, 0);
    assert AllFit(a) && AllFit(b) && !Fits64(Deciding(a, b));
  }

  // ---- ranges ------------------------------------------------------------------------------------------

  /** The first version outside a caret range. */
  function CaretBound(base: Triple): Triple {
    if base.major > 0 then Triple(base.major + 1, 0, 0) else Triple(0, base.minor + 1, 0)
  }

  /** ^base is >=base and <bound, with bound the next major, or the next minor when the major is 0. */
  lemma CaretIsTwoComparators(v: Triple, base: Triple)
    requires Natural(v) && Natural(base)
    ensures Meets(v, Caret, base) <==> !Precedes(v, base) && Precedes(v, CaretBound(base))
    ensures Natural(CaretBound(base)) ==>
      (Meets(v, Caret, base) <==> Meets(v, AtLeast, base) && Meets(v, Below, CaretBound(base)))
  {
    CompareIsPrecedence(v, base);
    if Natural(CaretBound(base)) {
      CompareIsPrecedence(v, CaretBound(base));
    }
  }

  /** The same on the text: "^1.2.3" and ">=1.2.3 <2.0.0" accept and reject exactly the same version strings, with
      the same errors, for every base whose bound can be written. */
  lemma CaretTextIsTwoComparatorText(version: string, base: Triple)
    requires Natural(base) && Natural(CaretBound(base))
    ensures Satisfies(version, "^" + Format(base)) ==
            Satisfies(version, ">=" + Format(base) + " " + "<" + Format(CaretBound(base)))
  {
    var bound := CaretBound(base);
    var caret, low, high := "^" + Format(base), ">=" + Format(base), "<" + Format(bound);
    ClauseOfFormat("^", Caret, base);
    ClauseOfFormat(">=", AtLeast, base);
    ClauseOfFormat("<", Below, bound);
    OneWord(caret);
    TwoWords(low, high);
    assert low + " " + high == ">=" + Format(base) + " " + "<" + Format(bound);
    if Parse(version).Success? {
      ParsedIsNatural(version);
      CaretClauses(Parse(version).value, base);
    }
  }

  lemma CaretClauses(v: Triple, base: Triple)
    requires Natural(v) && Natural(base) && Natural(CaretBound(base))
    ensures SatisfiesAll(v, ["^" + Format(base)]) ==
            SatisfiesAll(v, [">=" + Format(base), "<" + Format(CaretBound(base))])
  {
    var bound := CaretBound(base);
    var caret, low, high := "^" + Format(base), ">=" + Format(base), "<" + Format(bound);
    ClauseOfFormat("^", Caret, base);
    ClauseOfFormat(">=", AtLeast, base);
    ClauseOfFormat("<", Below, bound);
    ParseFormatted(base);
    ParseFormatted(bound);
    CaretIsTwoComparators(v, base);
    assert [caret][1..] == [] && [low, high][1..] == [high] && [high][1..] == [];
  }

  lemma ParseFormatted(t: Triple)
    requires Natural(t)
    ensures Parse(Format(t)) == Success(t)
  {
    ParseOfFormat(t, "");
    assert Format(t) + "" == Format(t);
  }

  lemma FormatChars(t: Triple)
    requires Natural(t)
    ensures Format(t) != [] && IsDigit(Format(t)[0])
    ensures forall c :: c in Format(t) ==> IsDigit(c) || c == '.'
  {
    assert Format(t)[0] == Pad(t.major, 1)[0] && Pad(t.major, 1)[0] in Pad(t.major, 1);
  }

  /** How each operator is written; a bare version is an exact one. */
  predicate Writes(sign: string, op: Operator) {
    match op
    case Caret => sign == "^"
    case AtLeast => sign == ">="
    case AtMost => sign == "<="
    case Above => sign == ">"
    case Below => sign == "<"
    case Exactly => sign == "=" || sign == ""
  }

  /** A clause that was written with an operator is read with that operator. */
  lemma ClauseOfFormat(sign: string, op: Operator, base: Triple)
    requires Natural(base)
    requires Writes(sign, op)
    ensures Operation(sign + Format(base)) == (op, Format(base))
    ensures sign + Format(base) != [] && forall c :: c in sign + Format(base) ==> !IsSpace(c)
  {
    FormatChars(base);
    var clause := sign + Format(base);
    assert clause[|sign|..] == Format(base);
    assert clause[..1][0] == clause[0];
    assert |clause| >= 2 ==> clause[..2] == [clause[0], clause[1]];
    if sign == "" {
      assert clause == Format(base);
    } else if |sign| == 2 {
      assert clause[..2] == sign;
    } else {
      assert clause[..1] == sign;
      assert clause[1] == Format(base)[0];
    }
  }

  // ---- what each operator accepts ------------------------------------------------------------------------

  /** A clause with this sign in front of a version, on another version. */
  function Asked(v: Triple, sign: string, t: Triple): Result<bool, Error>
    requires Natural(v) && Natural(t)
  {
    Satisfies(Format(v), sign + Format(t))
  }

  lemma ReadsItsClause(v: Triple, sign: string, op: Operator, t: Triple)
    requires Natural(v) && Natural(t) && Writes(sign, op)
    ensures SatisfiesClause(v, sign + Format(t)) == Success(Meets(v, op, t))
    ensures Asked(v, sign, t) == Success(Meets(v, op, t))
  {
    ParseFormatted(t);
    ParseFormatted(v);
    ClauseOfFormat(sign, op, t);
    OneWord(sign + Format(t));
    var clauses := [sign + Format(t)];
    assert clauses[1..] == [];
    assert SatisfiesAll(v, clauses) == if Meets(v, op, t) then SatisfiesAll(v, clauses[1..]) else Success(false);
  }

  /** A bare version accepts itself alone, and so does one after an equals sign. */
  lemma ExactAcceptsItselfAlone(v: Triple, t: Triple)
    requires Natural(v) && Natural(t)
    ensures Asked(v, "", t) == Success(v == t)
    ensures Asked(v, "=", t) == Success(v == t)
  {
    ReadsItsClause(v, "", Exactly, t);
    ReadsItsClause(v, "=", Exactly, t);
    CompareIsPrecedence(v, t);
  }

  /** The four comparators accept what comes after, not after, before or not before. */
  lemma ComparatorsAcceptTheirSide(v: Triple, t: Triple)
    requires Natural(v) && Natural(t)
    ensures Asked(v, ">", t) == Success(Precedes(t, v))
    ensures Asked(v, "<=", t) == Success(!Precedes(t, v))
    ensures Asked(v, "<", t) == Success(Precedes(v, t))
    ensures Asked(v, ">=", t) == Success(!Precedes(v, t))
  {
    ReadsItsClause(v, ">", Above, t);
    ReadsItsClause(v, "<=", AtMost, t);
    ReadsItsClause(v, "<", Below, t);
    ReadsItsClause(v, ">=", AtLeast, t);
    CompareIsPrecedence(v, t);
  }

  /** A caret accepts what is not before the version and has its major, or for major 0 its major and minor. */
  lemma CaretAcceptsItsLine(v: Triple, t: Triple)
    requires Natural(v) && Natural(t)
    ensures Asked(v, "^", t) ==
      Success(!Precedes(v, t) && v.major == t.major && (t.major == 0 ==> v.minor == t.minor))
  {
    ReadsItsClause(v, "^", Caret, t);
    CompareIsPrecedence(v, t);
  }

  /** A pre-release or build part of the version that is checked makes no difference. */
  lemma SuffixesAreNotCompared(v: Triple, suffix: string, range: string)
    requires Natural(v) && (suffix == "" || suffix[0] == '-' || suffix[0] == '+')
    ensures Satisfies(Format(v) + suffix, range) == Satisfies(Format(v), range)
  {
    ParseOfFormat(v, suffix);
    ParseFormatted(v);
  }

  /** A clause whose version does not parse is an error, that of the version, whatever its operator; so is a version to be
      checked that does not parse, whatever the range. */
  lemma WhatDoesNotParseIsAnError(v: Triple, sign: string, op: Operator, s: string, version: string, range: string)
    requires Natural(v) && Writes(sign, op) && Parse(s).Failure? && s != ""
    requires s[0] !in {'^', '<', '>', '='} && forall c :: c in s ==> !IsWhiteSpace(c)
    ensures Satisfies(Format(v), sign + s) == Failure(Parse(s).error)
    ensures Parse(version).Failure? ==> Satisfies(version, range) == Failure(Parse(version).error)
  {
    var clause := sign + s;
    assert clause[|sign|..] == s;
    assert clause[..1][0] == clause[0];
    assert |clause| >= 2 ==> clause[..2] == [clause[0], clause[1]];
    if sign == "" {
      assert clause == s;
    } else if |sign| == 2 {
      assert clause[..2] == sign;
    } else {
      assert clause[..1] == sign;
      assert clause[1] == s[0];
    }
    assert Operation(clause) == (op, s);
    forall c | c in clause ensures !IsSpace(c) {
      SpacesAreWhite(c);
    }
    ParseFormatted(v);
    OneWord(clause);
  }

  // ---- what is a version and what is a space ---------------------------------------------------------------

  /** A number of at least one digit that fits in 64 bits with its sign. */
  predicate IsNumber(s: string) {
    s != [] && (forall c :: c in s ==> '0' <= c <= '9') && Value(s) <= 9_223_372_036_854_775_807
  }

  lemma AtoiReadsNumbers(s: string)
    requires forall c :: c in s ==> c != '+' && c != '-'
    ensures Atoi(s).Some? <==> IsNumber(s)
    ensures IsNumber(s) ==> Atoi(s) == Some(Value(s))
  {
    if s != [] {
      assert s[0] in s;
    }
    assert (exists c | c in s :: !IsDigit(c)) <==> !forall c :: c in s ==> IsDigit(c);
    assert (forall c :: c in s ==> IsDigit(c)) <==> forall c :: c in s ==> '0' <= c <= '9';
  }

  lemma {:induction false} SplitThenJoin(s: string)
    ensures var parts := Split(s, '.');
      && (|parts| == 3 ==> s == parts[0] + "." + parts[1] + "." + parts[2])
      && (|parts| == 2 ==> s == parts[0] + "." + parts[1])
      && (|parts| == 1 ==> s == parts[0])
      && forall p :: p in parts ==> '.' !in p
  {
    if s != [] {
      SplitThenJoin(s[1..]);
      assert s == [s[0]] + s[1..];
    }
  }

  /** Three numbers with dots between them. */
  ghost predicate IsCoreVersion(core: string, a: string, b: string, c: string) {
    IsNumber(a) && IsNumber(b) && IsNumber(c) && core == a + "." + b + "." + c
  }

  lemma NumbersSplit(core: string, a: string, b: string, c: string)
    requires IsCoreVersion(core, a, b, c)
    ensures Split(core, '.') == [a, b, c]
  {
    assert core == a + ['.'] + (b + ['.'] + c);
    SplitFirst(a, '.', b + ['.'] + c);
    SplitFirst(b, '.', c);
    SplitWhole(c, '.');
  }

  lemma CoreHasNoSigns(s: string)
    ensures forall p, c :: p in Split(Core(s), '.') && c in p ==> c != '+' && c != '-'
  {
    BeforeStops(s, '+');
    BeforeStops(Before(s, '+'), '-');
    PartsComeFrom(Core(s), '.');
  }

  /** A string is a version if and only if, cut at the first plus and then at the first minus, it is three numbers of 64
      bits with dots between them, leading zeros included; and then it is those numbers. */
  lemma ParsesIffThreeNumbers(s: string)
    ensures Parse(s).Success? <==> exists a, b, c :: IsCoreVersion(Core(s), a, b, c)
    ensures forall a, b, c :: IsCoreVersion(Core(s), a, b, c) ==> Parse(s) == Success(Triple(Value(a), Value(b), Value(c)))
  {
    CoreHasNoSigns(s);
    var parts := Split(Core(s), '.');
    SplitThenJoin(Core(s));
    forall p | p in parts ensures Atoi(p).Some? <==> IsNumber(p) {
      AtoiReadsNumbers(p);
    }
    if |parts| == 3 {
      assert parts[0] in parts && parts[1] in parts && parts[2] in parts;
      assert Parse(s).Success? ==> IsCoreVersion(Core(s), parts[0], parts[1], parts[2]);
    }
    forall a, b, c | IsCoreVersion(Core(s), a, b, c) ensures Parse(s) == Success(Triple(Value(a), Value(b), Value(c))) {
      NumbersSplit(Core(s), a, b, c);
      assert a in parts && b in parts && c in parts;
      AtoiReadsNumbers(a);
      AtoiReadsNumbers(b);
      AtoiReadsNumbers(c);
    }
  }

  /** A string that is not is refused for its shape, if it does not have two dots, or else for a part that is no number. */
  lemma ParseErrorsNameTheFault(s: string)
    ensures Parse(s) == Failure(NotThreeParts) <==> |Split(Core(s), '.')| != 3
    ensures Parse(s).Failure? ==> Parse(s).error == NotThreeParts || Parse(s).error == NotANumber
  {
  }

  /** White space as Unicode has it. */
  predicate IsWhiteSpace(c: char) {
    c as int in {9, 10, 11, 12, 13, 0x20, 0x85, 0xA0, 0x1680, 0x2000, 0x2001, 0x2002, 0x2003, 0x2004, 0x2005, 0x2006,
                 0x2007, 0x2008, 0x2009, 0x200A, 0x2028, 0x2029, 0x202F, 0x205F, 0x3000}
  }

  predicate AllWhite(s: string) {
    forall c :: c in s ==> IsWhiteSpace(c)
  }

  lemma SpacesAreWhite(c: char)
    ensures IsSpace(c) <==> IsWhiteSpace(c)
  {
  }

  /** A range is cut into clauses at white space, however much there is of it: what stands before the first clause and
      after the last is skipped, and a clause ends where white space begins. */
  lemma {:induction false} ClausesAreCutAtWhiteSpace(white: string, clause: string, rest: string)
    requires AllWhite(white) && clause != [] && forall c :: c in clause ==> !IsWhiteSpace(c)
    requires rest == [] || IsWhiteSpace(rest[0])
    ensures Words(white) == []
    ensures Words(white + clause + rest) == [clause] + Words(rest)
    decreases |white|
  {
    if white == [] {
      forall c | c in clause ensures !IsSpace(c) {
        SpacesAreWhite(c);
      }
      if rest != [] {
        SpacesAreWhite(rest[0]);
      }
      assert [] + clause + rest == clause + rest;
      WordOf(clause, rest);
      assert (clause + rest)[|clause|..] == rest;
    } else {
      SpacesAreWhite(white[0]);
      assert white[0] in white;
      assert (white + clause + rest)[1..] == white[1..] + clause + rest;
      ClausesAreCutAtWhiteSpace(white[1..], clause, rest);
    }
  }

  /** A version is inside its own caret range. */
  lemma CaretAcceptsItself(t: Triple)
    requires Natural(t)
    ensures Satisfies(Format(t), "^" + Format(t)) == Success(true)
  {
    ParseFormatted(t);
    ClauseOfFormat("^", Caret, t);
    OneWord("^" + Format(t));
    CompareIsPrecedence(t, t);
    var clauses := ["^" + Format(t)];
    assert SatisfiesClause(t, clauses[0]) == Success(true) && clauses[1..] == [];
    assert SatisfiesAll(t, clauses) == SatisfiesAll(t, clauses[1..]);
  }

  lemma {:induction false} WordOf(s: string, rest: string)
    requires (forall c :: c in s ==> !IsSpace(c)) && (rest == [] || IsSpace(rest[0]))
    ensures Word(s + rest) == s
  {
    if s == [] {
      assert s + rest == rest;
    } else {
      assert (s + rest)[1..] == s[1..] + rest;
      WordOf(s[1..], rest);
    }
  }

  lemma OneWord(s: string)
    requires s != [] && forall c :: c in s ==> !IsSpace(c)
    ensures Words(s) == [s]
  {
    WordOf(s, []);
    assert s + [] == s && s[|s|..] == [];
  }

  lemma TwoWords(a: string, b: string)
    requires a != [] && forall c :: c in a ==> !IsSpace(c)
    requires b != [] && forall c :: c in b ==> !IsSpace(c)
    ensures Words(a + " " + b) == [a, b]
  {
    var s := a + " " + b;
    assert s == a + (" " + b);
    WordOf(a, " " + b);
    assert s[|a|..] == " " + b && (" " + b)[1..] == b;
    OneWord(b);
  }

  /** One clause accepts a convex set: anything between two accepted versions is accepted. */
  lemma ClauseIsConvex(op: Operator, base: Triple, a: Triple, v: Triple, b: Triple)
    requires Natural(base) && Natural(a) && Natural(v) && Natural(b)
    requires !Precedes(v, a) && !Precedes(b, v) && Meets(a, op, base) && Meets(b, op, base)
    ensures Meets(v, op, base)
  {
    CompareIsPrecedence(a, base);
    CompareIsPrecedence(v, base);
    CompareIsPrecedence(b, base);
  }

  predicate Accepted(v: Triple, clauses: seq<string>) {
    SatisfiesAll(v, clauses) == Success(true)
  }

  /** A version is accepted exactly when every clause parses and is met. */
  lemma {:induction false} AcceptedMeansEvery(v: Triple, clauses: seq<string>)
    ensures Accepted(v, clauses) <==> forall c :: c in clauses ==> SatisfiesClause(v, c) == Success(true)
  {
    if clauses != [] {
      AcceptedMeansEvery(v, clauses[1..]);
      assert clauses == [clauses[0]] + clauses[1..];
    }
  }

  /** So the order and repetition of clauses do not matter for acceptance. */
  lemma AcceptanceIgnoresOrder(v: Triple, a: seq<string>, b: seq<string>)
    requires forall c :: c in a <==> c in b
    ensures Accepted(v, a) <==> Accepted(v, b)
  {
    AcceptedMeansEvery(v, a);
    AcceptedMeansEvery(v, b);
  }

  /** The versions a whole range accepts form a convex set. */
  lemma RangeIsConvex(clauses: seq<string>, a: Triple, v: Triple, b: Triple)
    requires Natural(a) && Natural(v) && Natural(b) && !Precedes(v, a) && !Precedes(b, v)
    requires Accepted(a, clauses) && Accepted(b, clauses)
    ensures Accepted(v, clauses)
  {
    AcceptedMeansEvery(a, clauses);
    AcceptedMeansEvery(b, clauses);
    AcceptedMeansEvery(v, clauses);
    forall c | c in clauses ensures SatisfiesClause(v, c) == Success(true) {
      var (op, rest) := Operation(c);
      assert SatisfiesClause(a, c) == Success(true) && SatisfiesClause(b, c) == Success(true);
      ParsedIsNatural(rest);
      ClauseIsConvex(op, Parse(rest).value, a, v, b);
    }
  }

  predicate IsError(v: Triple, c: string) {
    SatisfiesClause(v, c).Failure?
  }

  predicate IsUnmet(v: Triple, c: string) {
    SatisfiesClause(v, c) == Success(false)
  }

  ghost predicate HasError(v: Triple, clauses: seq<string>) {
    exists c :: c in clauses && IsError(v, c)
  }

  ghost predicate HasUnmet(v: Triple, clauses: seq<string>) {
    exists c :: c in clauses && IsUnmet(v, c)
  }

  /** Without a clause that fails to parse a range is no error. */
  lemma {:induction false} NoErrorClauseNoError(v: Triple, clauses: seq<string>)
    requires !HasError(v, clauses)
    ensures SatisfiesAll(v, clauses).Success?
    decreases |clauses|
  {
    if clauses != [] {
      assert !IsError(v, clauses[0]) && clauses == [clauses[0]] + clauses[1..];
      NoErrorClauseNoError(v, clauses[1..]);
    }
  }

  /** With one, and no clause that is merely unmet, it is an error in every order. */
  lemma {:induction false} OnlyErrorsMeanError(v: Triple, clauses: seq<string>)
    requires HasError(v, clauses) && !HasUnmet(v, clauses)
    ensures SatisfiesAll(v, clauses).Failure?
    decreases |clauses|
  {
    assert clauses[0] in clauses && !IsUnmet(v, clauses[0]);
    assert clauses == [clauses[0]] + clauses[1..];
    if !IsError(v, clauses[0]) {
      OnlyErrorsMeanError(v, clauses[1..]);
    }
  }

  /** Two orders of the same clauses, one an error and one not. */
  ghost predicate Disagree(v: Triple, clauses: seq<string>, a: seq<string>, b: seq<string>) {
    && multiset(a) == multiset(clauses) && multiset(b) == multiset(clauses)
    && SatisfiesAll(v, a).Failure? && SatisfiesAll(v, b).Success?
  }

  function MoveToFront(clauses: seq<string>, i: nat): (moved: seq<string>)
    requires i < |clauses|
    ensures moved != [] && moved[0] == clauses[i]
  {
    [clauses[i]] + clauses[..i] + clauses[i + 1..]
  }

  lemma MovingKeepsClauses(clauses: seq<string>, i: nat)
    requires i < |clauses|
    ensures multiset(MoveToFront(clauses, i)) == multiset(clauses)
  {
    assert clauses == clauses[..i] + [clauses[i]] + clauses[i + 1..];
  }

  lemma SameClauses(v: Triple, a: seq<string>, b: seq<string>)
    requires multiset(a) == multiset(b)
    ensures HasError(v, a) ==> HasError(v, b)
    ensures HasUnmet(v, a) ==> HasUnmet(v, b)
  {
    forall c | c in a ensures c in b {
      assert c in multiset(a);
    }
  }

  /** Whether a range that is not accepted is an error can depend on the order, and exactly when one of its clauses is
      unmet and one does not parse: then, and only then, are there two orders of its clauses of which one is an error
      and the other a plain rejection or acceptance. */
  lemma OrderDecidesErrorOrRejection(v: Triple, clauses: seq<string>)
    ensures (exists a, b :: Disagree(v, clauses, a, b)) <==> HasUnmet(v, clauses) && HasError(v, clauses)
  {
    if HasUnmet(v, clauses) && HasError(v, clauses) {
      var i :| 0 <= i < |clauses| && IsError(v, clauses[i]);
      var j :| 0 <= j < |clauses| && IsUnmet(v, clauses[j]);
      MovingKeepsClauses(clauses, i);
      MovingKeepsClauses(clauses, j);
      assert Disagree(v, clauses, MoveToFront(clauses, i), MoveToFront(clauses, j));
    }
    if a, b :| Disagree(v, clauses, a, b) {
      SameClauses(v, a, b);
      SameClauses(v, a, clauses);
      SameClauses(v, b, a);
      if !HasError(v, a) {
        NoErrorClauseNoError(v, a);
      } else if !HasUnmet(v, b) {
        OnlyErrorsMeanError(v, b);
      }
    }
  }
}
