/** Version parsing, comparison and ranges (daemon/extensions/semver.go), on the strings themselves. */
module Semver {
  import opened Wrappers
  import opened Decimal

  const MAX_INT := 0x7FFF_FFFF_FFFF_FFFF

  /** A parsed MAJOR.MINOR.PATCH; the fields are 64-bit signed integers. */
  datatype Triple = Triple(major: int, minor: int, patch: int)

  datatype Error = NotThreeParts | NotANumber

  predicate Fits64(n: int) {
    -MAX_INT - 1 <= n <= MAX_INT
  }

  /** The triples parsing can produce. */
  predicate Natural(t: Triple) {
    0 <= t.major <= MAX_INT && 0 <= t.minor <= MAX_INT && 0 <= t.patch <= MAX_INT
  }

  // ---- text --------------------------------------------------------------------------------------------

  /** strings.SplitN(s, c, 2)[0]. */
  function Before(s: string, c: char): string {
    if s == [] || s[0] == c then [] else [s[0]] + Before(s[1..], c)
  }

  /** strings.Split(s, c): always at least one part. */
  function Split(s: string, c: char): (parts: seq<string>)
    ensures |parts| >= 1
  {
    if s == [] then [[]]
    else
      var rest := Split(s[1..], c);
      if s[0] == c then [[]] + rest else [[s[0]] + rest[0]] + rest[1..]
  }

  /** strconv.Atoi: an optional sign, at least one digit, nothing else, and a value that fits. */
  function Atoi(s: string): Option<int> {
    var signed := s != [] && (s[0] == '+' || s[0] == '-');
    var digits := if signed then s[1..] else s;
    if digits == [] || exists c | c in digits :: !IsDigit(c) then None
    else
      var n := if signed && s[0] == '-' then -(Value(digits) as int) else Value(digits);
      if Fits64(n) then Some(n) else None
  }


  function Core(s: string): string {
    Before(Before(s, '+'), '-')
  }

  function Parse(s: string): Result<Triple, Error> {
    var parts := Split(Core(s), '.');
    if |parts| != 3 then Failure(NotThreeParts)
    else
      var a, b, c := Atoi(parts[0]), Atoi(parts[1]), Atoi(parts[2]);
      if a.None? || b.None? || c.None? then Failure(NotANumber) else Success(Triple(a.value, b.value, c.value))
  }

  /** parseSemver: cut build metadata and pre-release, split, and convert part by part. */
  method ParseSemver(s: string) returns (r: Result<Triple, Error>)
    ensures r == Parse(s)
  {
    var parts := Split(Before(Before(s, '+'), '-'), '.');
    if |parts| != 3 {
      return Failure(NotThreeParts);
    }
    var nums := new int[3](_ => 0);
    for i := 0 to 3
      invariant forall j :: 0 <= j < i ==> Atoi(parts[j]) == Some(nums[j])
    {
      var n := Atoi(parts[i]);
      if n == None {
        return Failure(NotANumber);
      }
      nums[i] := n.value;
    }
    return Success(Triple(nums[0], nums[1], nums[2]));
  }

  // ---- comparison --------------------------------------------------------------------------------------

  /** Subtraction on 64-bit signed integers wraps around. */
  function Minus64(a: int, b: int): int {
    (a - b + MAX_INT + 1) % (2 * (MAX_INT + 1)) - MAX_INT - 1
  }

  function Sign(n: int): int {
    if n < 0 then -1 else if n > 0 then 1 else 0
  }

  function Compare(a: Triple, b: Triple): int {
    if a.major != b.major then Sign(Minus64(a.major, b.major))
    else if a.minor != b.minor then Sign(Minus64(a.minor, b.minor))
    else Sign(Minus64(a.patch, b.patch))
  }

  /** Precedence by MAJOR, then MINOR, then PATCH, numerically. */
  predicate Precedes(a: Triple, b: Triple) {
    a.major < b.major || (a.major == b.major && (a.minor < b.minor || (a.minor == b.minor && a.patch < b.patch)))
  }

  // ---- ranges ------------------------------------------------------------------------------------------

  predicate HasPrefix(s: string, p: string) {
    |p| <= |s| && s[..|p|] == p
  }

  datatype Operator = Caret | AtLeast | AtMost | Above | Below | Exactly

  /** The operator a clause starts with, tried in the source's order, and the rest of the clause. */
  function Operation(clause: string): (Operator, string) {
    if HasPrefix(clause, "^") then (Caret, clause[1..])
    else if HasPrefix(clause, ">=") then (AtLeast, clause[2..])
    else if HasPrefix(clause, "<=") then (AtMost, clause[2..])
    else if HasPrefix(clause, ">") then (Above, clause[1..])
    else if HasPrefix(clause, "<") then (Below, clause[1..])
    else if HasPrefix(clause, "=") then (Exactly, clause[1..])
    else (Exactly, clause)
  }

  predicate Meets(v: Triple, op: Operator, base: Triple) {
    match op
    case Caret => Compare(v, base) >= 0 && if base.major > 0 then v.major == base.major else v.major == 0 && v.minor == base.minor
    case AtLeast => Compare(v, base) >= 0
    case AtMost => Compare(v, base) <= 0
    case Above => Compare(v, base) > 0
    case Below => Compare(v, base) < 0
    case Exactly => Compare(v, base) == 0
  }

  function SatisfiesClause(v: Triple, clause: string): Result<bool, Error> {
    var (op, rest) := Operation(clause);
    match Parse(rest)
    case Failure(e) => Failure(e)
    case Success(base) => Success(Meets(v, op, base))
  }

  /** unicode.IsSpace. */
  predicate IsSpace(c: char) {
    var n := c as int;
    || (9 <= n <= 13) || n == 0x20 || n == 0x85 || n == 0xA0 || n == 0x1680 || (0x2000 <= n <= 0x200A)
    || n == 0x2028 || n == 0x2029 || n == 0x202F || n == 0x205F || n == 0x3000
  }

  /** The leading run of non-space characters. */
  function Word(s: string): (w: string)
    ensures |w| <= |s| && w == s[..|w|]
  {
    if s == [] || IsSpace(s[0]) then [] else [s[0]] + Word(s[1..])
  }

  /** strings.Fields. */
  function Words(s: string): seq<string>
    decreases |s|
  {
    if s == [] then []
    else if IsSpace(s[0]) then Words(s[1..])
    else [Word(s)] + Words(s[|Word(s)|..])
  }

  /** The clauses in order, stopping at the first error or the first one that is not met. */
  function SatisfiesAll(v: Triple, clauses: seq<string>): Result<bool, Error> {
    if clauses == [] then Success(true)
    else
      match SatisfiesClause(v, clauses[0])
      case Failure(e) => Failure(e)
      case Success(ok) => if ok then SatisfiesAll(v, clauses[1..]) else Success(false)
  }

  function Satisfies(version: string, range: string): Result<bool, Error> {
    match Parse(version)
    case Failure(e) => Failure(e)
    case Success(v) => SatisfiesAll(v, Words(range))
  }

  /** satisfiesRange: the loop with its early exits. */
  method SatisfiesRange(version: string, range: string) returns (r: Result<bool, Error>)
    ensures r == Satisfies(version, range)
  {
    var parsed := ParseSemver(version);
    if parsed.Failure? {
      return Failure(parsed.error);
    }
    var clauses := Words(range);
    for i := 0 to |clauses|
      invariant SatisfiesAll(parsed.value, clauses) == SatisfiesAll(parsed.value, clauses[i..])
    {
      var ok := SatisfiesClause(parsed.value, clauses[i]);
      if ok.Failure? {
        return Failure(ok.error);
      }
      if !ok.value {
        return Success(false);
      }
    }
    return Success(true);
  }
}
