/** Ticket identifiers: what the generators put together, and what can be read back from it. */
module TicketIds {
  import opened Domain
  import opened Steps
  import opened Runs

  newtype Long = x: int | -0x8000_0000_0000_0000 <= x <= 0x7fff_ffff_ffff_ffff
  newtype Byte = x: int | -128 <= x < 128

  const LONG_MAX: Long := 0x7fff_ffff_ffff_ffff

  /** The values from zero to the largest long. */
  const PERIOD := 0x8000_0000_0000_0000

  // ---- The number ----------------------------------------------------------------------------

  function Next(count: Long): Long {
    if count == LONG_MAX then 0 else count + 1
  }

  class DefaultLongNumericGenerator {
    var count: Long

    constructor (initialValue: Long)
      ensures count == initialValue
    {
      count := initialValue;
    }

    method GetNextValue() returns (value: Long)
      modifies this
      ensures value == old(count) && count == Next(value)
    {
      if count == LONG_MAX {
        count := 0;
        return LONG_MAX;
      }
      value := count;
      count := count + 1;
    }

    method GetNextNumberAsString() returns (number: string)
      modifies this
      ensures number == Decimal(old(count) as int) && count == Next(old(count))
    {
      var value := GetNextValue();
      number := Decimal(value as int);
    }
  }

  /** The value of the k-th call, counted from zero. */
  function Nth(start: Long, k: nat): Long {
    if k == 0 then start else Next(Nth(start, k - 1))
  }

  /** From a negative start the counter climbs to zero; from there on it runs through the period. */
  lemma {:induction false} NthIs(start: Long, k: nat)
    ensures var sum := start as int + k; Nth(start, k) as int == if sum < 0 then sum else sum % PERIOD
  {
    if k > 0 {
      NthIs(start, k - 1);
    }
  }

  /** A value comes back exactly after whole periods, and a negative one never. */
  lemma RepeatsIff(start: Long, i: nat, j: nat)
    requires i < j
    ensures Nth(start, i) == Nth(start, j) <==> start as int + i >= 0 && (j - i) % PERIOD == 0
  {
    NthIs(start, i);
    NthIs(start, j);
  }

  // ---- Decimal notation ------------------------------------------------------------------------

  function Digits(n: nat): string {
    if n < 10 then ['0' + n as char] else Digits(n / 10) + ['0' + (n % 10) as char]
  }

  function Decimal(n: int): string {
    if n < 0 then "-" + Digits(-n) else Digits(n)
  }

  function Number(digits: string): int {
    if digits == [] then 0
    else 10 * Number(digits[..|digits| - 1]) + (digits[|digits| - 1] as int - '0' as int)
  }

  lemma {:induction false} DigitsParse(n: nat)
    ensures Number(Digits(n)) == n && '-' !in Digits(n)
  {
    if n < 10 {
      assert Digits(n)[..0] == [];
    } else {
      DigitsParse(n / 10);
      assert Digits(n)[..|Digits(n)| - 1] == Digits(n / 10);
    }
  }

  // ---- The random part ---------------------------------------------------------------------------

  const LOWER := "abcdefghijklmnopqrstuvwxyz"
  const UPPER := "ABCDEFGHIJKLMNOPQRSTUVWXYZ"
  const PRINTABLE_CHARACTERS := LOWER + UPPER + "012345679"

  const PRINTABLE := 61

  /** The alphabet by its code points; the digit eight is left out. */
  function Printable(i: nat): char
    requires i < PRINTABLE
  {
    if i < 26 then 'a' + i as char
    else if i < 52 then 'A' + (i - 26) as char
    else if i < 60 then '0' + (i - 52) as char
    else '9'
  }

  lemma AlphabetIsPrintable(i: nat)
    requires i < PRINTABLE
    ensures |PRINTABLE_CHARACTERS| == PRINTABLE && PRINTABLE_CHARACTERS[i] == Printable(i)
  {
    if i < 26 {
      assert LOWER[i] == Printable(i);
    } else if i < 52 {
      assert UPPER[i - 26] == Printable(i);
    }
  }

  /** The remainder takes the sign of the dividend. */
  function Remainder(a: int, b: int): int
    requires b > 0
  {
    if a >= 0 then a % b else -(-a % b)
  }

  function Abs(n: int): nat {
    if n < 0 then -n else n
  }

  /** A byte and its opposite stand for the same character. */
  function Letter(b: Byte): char {
    Printable(Abs(b as int) % PRINTABLE)
  }

  /** The letter at the remainder of the absolute value, in the alphabet of the program. */
  lemma LetterIs(b: Byte)
    ensures 0 <= b ==> Letter(b) == PRINTABLE_CHARACTERS[(b as int) % |PRINTABLE_CHARACTERS|]
    ensures b < 0 ==> Letter(b) == PRINTABLE_CHARACTERS[(-(b as int)) % |PRINTABLE_CHARACTERS|]
    ensures PRINTABLE_CHARACTERS == "abcdefghijklmnopqrstuvwxyz" + "ABCDEFGHIJKLMNOPQRSTUVWXYZ" + "012345679"
  {
    AlphabetIsPrintable(Abs(b as int) % PRINTABLE);
  }

  function RandomString(random: seq<Byte>): string {
    seq(|random|, i requires 0 <= i < |random| => Letter(random[i]))
  }

  method ConvertBytesToString(random: array<Byte>) returns (s: string)
    ensures s == RandomString(random[..])
  {
    var output := new char[random.Length];
    for i := 0 to random.Length
      invariant forall j :: 0 <= j < i ==> output[j] == Letter(random[j])
    {
      AlphabetIsPrintable(Abs(random[i] as int) % PRINTABLE);
      var index := Abs(Remainder(random[i] as int, |PRINTABLE_CHARACTERS|));
      output[i] := PRINTABLE_CHARACTERS[index];
    }
    return output[..];
  }

  predicate LetterOrDigit(c: char) {
    'a' <= c <= 'z' || 'A' <= c <= 'Z' || '0' <= c <= '9'
  }

  function Place(c: char): (i: nat)
    requires LetterOrDigit(c) && c != '8'
    ensures i < PRINTABLE && Printable(i) == c
  {
    if 'a' <= c <= 'z' then c as int - 97 else if 'A' <= c <= 'Z' then c as int - 39 else if c == '9' then 60
    else c as int + 4
  }

  /** Some byte stands for every letter and every digit but eight, and no byte for anything else. */
  lemma AlphabetIs(c: char)
    ensures (exists b: Byte :: Letter(b) == c) <==> LetterOrDigit(c) && c != '8'
  {
    assert forall b: Byte :: LetterOrDigit(Letter(b)) && Letter(b) != '8';
    if LetterOrDigit(c) && c != '8' {
      assert Letter(Place(c) as Byte) == c;
    }
  }

  // ---- The identifier ------------------------------------------------------------------------------

  datatype Parts = Parts(prefix: string, number: int, random: string, suffix: Option<string>)
  {
    /** What the generators make of a prefix without a dash. */
    predicate Readable() {
      '-' !in prefix && number >= 0 && '-' !in random
    }
  }

  function Join(p: Parts): TicketId {
    p.prefix + "-" + Decimal(p.number) + "-" + p.random + if p.suffix.Some? then "-" + p.suffix.value else ""
  }

  class DefaultUniqueTicketIdGenerator {
    const numericGenerator: DefaultLongNumericGenerator
    const randomLength: nat
    const suffix: Option<string>

    predicate Valid() {
      suffix.Some? ==> "-" <= suffix.value
    }

    constructor (randomLength: nat, suffix: Option<string>)
      ensures Valid() && this.randomLength == randomLength
      ensures this.suffix == if suffix.Some? then Some("-" + suffix.value) else None
      ensures fresh(numericGenerator) && numericGenerator.count == 1
    {
      this.randomLength := randomLength;
      this.suffix := if suffix.Some? then Some("-" + suffix.value) else None;
      numericGenerator := new DefaultLongNumericGenerator(1);
    }

    /** `random` are the bytes that the source of randomness delivers for this call. */
    method GetNewTicketId(prefix: string, random: array<Byte>) returns (id: TicketId)
      requires random.Length == randomLength
      requires Valid()
      modifies numericGenerator
      ensures numericGenerator.count == Next(old(numericGenerator.count))
      ensures id == Join(Parts(prefix, old(numericGenerator.count) as int, RandomString(random[..]),
                               if suffix.Some? then Some(suffix.value[1..]) else None))
    {
      var number := numericGenerator.GetNextNumberAsString();
      var buffer := prefix;
      buffer := buffer + "-";
      buffer := buffer + number;
      buffer := buffer + "-";
      var s := ConvertBytesToString(random);
      buffer := buffer + s;
      if suffix.Some? {
        assert suffix.value == "-" + suffix.value[1..];
        buffer := buffer + suffix.value;
      }
      return buffer;
    }
  }

  // ---- Reading an identifier -------------------------------------------------------------------------

  /** The place of the first dash, or the length. */
  function Dash(s: string): (i: nat)
    ensures i <= |s| && '-' !in s[..i] && (i < |s| ==> s[i] == '-')
  {
    if s == [] || s[0] == '-' then 0
    else
      assert s[..1 + Dash(s[1..])] == [s[0]] + s[1..][..Dash(s[1..])];
      1 + Dash(s[1..])
  }

  /** What comes before the first dash, and what comes after it, if there is one. */
  function Cut(s: string): (string, Option<string>) {
    var i := Dash(s);
    (s[..i], if i < |s| then Some(s[i + 1..]) else None)
  }

  function Read(id: TicketId): Option<Parts> {
    var (prefix, rest) := Cut(id);
    if rest.None? then None
    else
      var (number, tail) := Cut(rest.value);
      if tail.None? then None
      else
        var (random, suffix) := Cut(tail.value);
        Some(Parts(prefix, Number(number), random, suffix))
  }

  lemma {:induction false} DashAt(s: string, n: nat)
    requires n <= |s| && '-' !in s[..n] && (n < |s| ==> s[n] == '-')
    ensures Dash(s) == n
  {
    if n > 0 {
      assert s[0] in s[..n];
      assert forall c :: c in s[1..][..n - 1] ==> c in s[..n];
      DashAt(s[1..], n - 1);
    }
  }

  lemma CutJoined(a: string, rest: string)
    requires '-' !in a
    ensures Cut(a + "-" + rest) == (a, Some(rest)) && Cut(a) == (a, None)
  {
    var s := a + "-" + rest;
    assert s[..|a|] == a == a[..|a|] && s[|a| + 1..] == rest;
    DashAt(s, |a|);
    DashAt(a, |a|);
  }

  /** Every part can be read back from the identifier. */
  lemma ReadJoined(p: Parts)
    requires p.Readable()
    ensures Read(Join(p)) == Some(p)
  {
    DigitsParse(p.number);
    var end := if p.suffix.Some? then "-" + p.suffix.value else "";
    var tail := p.random + end;
    var rest := Decimal(p.number) + "-" + tail;
    assert Join(p) == p.prefix + "-" + rest;
    CutJoined(p.prefix, rest);
    CutJoined(Decimal(p.number), tail);
    CutJoined(p.random, if p.suffix.Some? then p.suffix.value else "");
    assert p.suffix.None? ==> tail == p.random;
    assert p.suffix.Some? ==> tail == p.random + "-" + p.suffix.value;
  }

  /** Exactly then: a dash or a negative number moves the cuts. */
  lemma ReadIffReadable(p: Parts)
    ensures Read(Join(p)) == Some(p) <==> p.Readable()
  {
    if p.Readable() {
      ReadJoined(p);
    }
  }

  /** With a dash in a prefix two generators can hand out the same identifier. */
  lemma DashInPrefixIsAmbiguous()
    ensures Join(Parts("P-1", 2, "a", None)) == Join(Parts("P", 1, RandomString([54]), Some("a")))
  {
    assert RandomString([54]) == "2";
    assert Decimal(1) == "1" && Decimal(2) == "2";
  }

  lemma JoinIsInjective(p: Parts, q: Parts)
    requires p.Readable() && q.Readable()
    ensures Join(p) == Join(q) <==> p == q
  {
    ReadJoined(p);
    ReadJoined(q);
  }

  lemma LastDash(a: string, x: string, s: string)
    requires '-' !in x && s == a + "-" + x
    ensures s[|a|] == '-' && s[|a| + 1..] == x && forall k :: |a| < k < |s| ==> s[k] != '-'
  {
    forall k | |a| < k < |s| ensures s[k] != '-' {
      assert s[k] == x[k - |a| - 1];
    }
  }

  /** Texts that end in a dash and a dash-free part: the part can be told from the end. */
  lemma LastPartsAgree(a: string, x: string, b: string, y: string)
    requires '-' !in x && '-' !in y && a + "-" + x == b + "-" + y
    ensures x == y
  {
    LastDash(a, x, a + "-" + x);
    LastDash(b, y, a + "-" + x);
    assert |a| == |b|;
  }

  /** The end of an identifier, after its number. */
  function End(random: string, suffix: Option<string>): string {
    "-" + random + if suffix.Some? then "-" + suffix.value else ""
  }

  /** One generator's identifiers differ by their numbers alone, whatever prefixes it was asked for. */
  lemma NumbersTell(p: Parts, q: Parts)
    requires p.number >= 0 && q.number >= 0 && p.number != q.number
    requires p.suffix == q.suffix && |p.random| == |q.random|
    ensures Join(p) != Join(q)
  {
    DigitsParse(p.number);
    DigitsParse(q.number);
    var x, y := p.prefix + "-" + Decimal(p.number), q.prefix + "-" + Decimal(q.number);
    var e, f := End(p.random, p.suffix), End(q.random, q.suffix);
    assert Join(p) == x + e && Join(q) == y + f && |e| == |f|;
    if Join(p) == Join(q) {
      assert |x| == |y| && (x + e)[..|x|] == x && (y + f)[..|y|] == y;
      LastPartsAgree(p.prefix, Decimal(p.number), q.prefix, Decimal(q.number));
    }
  }

  /** One generator hands out no identifier twice within a period, whatever prefixes it is asked for. */
  lemma NoIdTwice(start: Long, i: nat, j: nat, p: Parts, q: Parts)
    requires start >= 0 && i < j < i + PERIOD
    requires p.number == Nth(start, i) as int && q.number == Nth(start, j) as int
    requires p.suffix == q.suffix && |p.random| == |q.random|
    ensures Join(p) != Join(q)
  {
    NthIs(start, i);
    NthIs(start, j);
    RepeatsIff(start, i, j);
    NumbersTell(p, q);
  }

  /** The prefix of an identifier is the kind it was asked for. */
  lemma TypedByPrefix(p: Parts)
    requires '-' !in p.prefix
    ensures IsTgtId(Join(p)) <==> TGT_PREFIX <= p.prefix
  {
    var id := Join(p);
    assert p.prefix <= id && id[|p.prefix|] == '-';
    assert id[..|p.prefix|] == p.prefix;
    if IsTgtId(id) {
      assert id[0] == 'T' && id[1] == 'G' && id[2] == 'T';
      assert |p.prefix| >= 3;
      assert p.prefix[0] == id[0] && p.prefix[1] == id[1] && p.prefix[2] == id[2];
    }
  }

  // ---- The generators behind the service ------------------------------------------------------------------

  /** Call `i` got its identifier in the draw `draws[i]` of the generator for its prefix. */
  ghost predicate Drawn(calls: seq<Call>, draws: seq<nat>, random: seq<seq<Byte>>, suffix: Option<string>)
    requires |calls| == |draws| == |random|
  {
    && (forall i {:trigger draws[i]} :: 0 <= i < |calls| && NewId(calls[i].req).Some? ==>
          && draws[i] < PERIOD
          && NewId(calls[i].req).value == Join(DrawnParts(calls[i], draws[i], RandomString(random[i]), suffix)))
    && (forall i, j {:trigger draws[i], draws[j]} :: 0 <= i < j < |calls| ==>
          NewId(calls[i].req).Some? && NewId(calls[j].req).Some? && calls[i].req.Grant? == calls[j].req.Grant?
          ==> draws[i] != draws[j])
  }

  function DrawnParts(call: Call, draw: nat, random: string, suffix: Option<string>): Parts {
    Parts(if call.req.Grant? then ST_PREFIX else TGT_PREFIX, Nth(1, draw) as int, random, suffix)
  }

  lemma DrawsDiffer(i: nat, j: nat)
    requires i < PERIOD && j < PERIOD
    ensures Nth(1, i) >= 0 && (Nth(1, i) == Nth(1, j) ==> i == j)
  {
    NthIs(1, i);
    if i != j {
      RepeatsIff(1, if i < j then i else j, if i < j then j else i);
    }
  }

  lemma DrawnIdsDiffer(c: Call, d: Call, i: nat, j: nat, r: string, s: string, suffix: Option<string>)
    requires i < PERIOD && j < PERIOD && '-' !in r && '-' !in s && (c.req.Grant? == d.req.Grant? ==> i != j)
    ensures Join(DrawnParts(c, i, r, suffix)) != Join(DrawnParts(d, j, s, suffix))
  {
    DrawsDiffer(i, j);
    DrawsDiffer(j, i);
    JoinIsInjective(DrawnParts(c, i, r, suffix), DrawnParts(d, j, s, suffix));
  }

  /** What runs ask of their identifiers is what one generator a prefix delivers, over a whole period. */
  lemma DrawnIdsAreLegal(calls: seq<Call>, draws: seq<nat>, random: seq<seq<Byte>>, suffix: Option<string>)
    requires |calls| == |draws| == |random| && Drawn(calls, draws, random, suffix)
    requires forall i, j :: 0 <= i < j < |calls| ==> calls[i].env.now <= calls[j].env.now
    ensures Legal(calls)
  {
    forall i, j | 0 <= i < j < |calls| ensures Follows(calls[i], calls[j]) {
      if NewId(calls[i].req).Some? && NewId(calls[j].req).Some? {
        assert draws[i] < PERIOD && draws[j] < PERIOD;
        DrawnIdsDiffer(calls[i], calls[j], draws[i], draws[j], RandomString(random[i]), RandomString(random[j]), suffix);
      }
    }
    forall i | 0 <= i < |calls| ensures WellPrefixed(calls[i].req) {
      if NewId(calls[i].req).Some? {
        assert draws[i] < PERIOD;
        TypedByPrefix(DrawnParts(calls[i], draws[i], RandomString(random[i]), suffix));
      }
    }
  }
}
