/** lib/redis/yo-cache.ts: big integers through JSON as tagged strings. */
module BigIntCodec {
  import opened Wrappers
  import opened Text

  const TAG := "__bigint:"

  datatype Field = Field(name: string, value: Json)

  /** A value as `JSON.stringify` walks it and `JSON.parse` builds it. */
  datatype Json =
    | Null
    | Bool(flag: bool)
    | Num(num: real)
    | Str(text: string)
    | Big(big: int)
    | Arr(items: seq<Json>)
    | Obj(fields: seq<Field>)

  datatype Error = BadBigInt

  // ---- `BigInt(text)` ----

  function DigitOf(c: char): nat {
    if IsDigit(c) then c as nat - '0' as nat
    else if 'a' <= c <= 'f' then c as nat - 'a' as nat + 10
    else if 'A' <= c <= 'F' then c as nat - 'A' as nat + 10
    else 99
  }

  /** The value of a non-empty run of digits in a base up to 16. */
  function InBase(s: string, base: nat): Option<int> {
    if s == "" || DigitOf(s[|s| - 1]) >= base then None
    else if |s| == 1 then Some(DigitOf(s[0]))
    else
      match InBase(s[..|s| - 1], base)
      case None => None
      case Some(n) => Some(n * base + DigitOf(s[|s| - 1]))
  }

  /** Blank text is 0; a base prefix takes no sign, a decimal may have one. */
  function ParseBigInt(text: string): Option<int> {
    var s := Trim(text);
    if s == "" then Some(0)
    else if |s| > 1 && s[0] == '0' && s[1] in {'x', 'X'} then InBase(s[2..], 16)
    else if |s| > 1 && s[0] == '0' && s[1] in {'o', 'O'} then InBase(s[2..], 8)
    else if |s| > 1 && s[0] == '0' && s[1] in {'b', 'B'} then InBase(s[2..], 2)
    else if s[0] == '-' then (match InBase(s[1..], 10) { case Some(n) => Some(-n) case None => None })
    else InBase(if s[0] == '+' then s[1..] else s, 10)
  }

  lemma {:induction false} InBaseTen(n: nat)
    ensures InBase(PrintNat(n), 10) == Some(n)
  {
    var s := PrintNat(n);
    if n >= 10 {
      InBaseTen(n / 10);
      assert s[..|s| - 1] == PrintNat(n / 10);
    }
  }

  /** Every integer, negative ones included, is read back from its decimal text. */
  lemma ParsePrinted(n: int)
    ensures ParseBigInt(PrintInt(n)) == Some(n)
  {
    var m: nat := if n < 0 then -n else n;
    var s := PrintInt(n);
    InBaseTen(m);
    assert IsDigit(PrintNat(m)[|PrintNat(m)| - 1]);
    assert Trim(s) == s;
    if n < 0 {
      assert s[1..] == PrintNat(m);
    } else {
      assert IsDigit(s[0]) && (|s| > 1 ==> IsDigit(s[1]));
    }
  }

  function DigitChar(d: nat): char
    requires d < 16
  {
    if d < 10 then ('0' as int + d) as char else ('a' as int + (d - 10)) as char
  }

  /** A number in a base up to 16, most significant digit first. */
  function PrintBase(n: nat, base: nat): (s: string)
    requires 2 <= base <= 16
    ensures s != ""
  {
    if n < base then [DigitChar(n)] else PrintBase(n / base, base) + [DigitChar(n % base)]
  }

  lemma QuotientAndRest(n: nat, base: nat)
    requires base >= 2
    ensures n / base * base + n % base == n
  {
  }

  lemma {:induction false} InBaseReads(n: nat, base: nat)
    requires 2 <= base <= 16
    ensures InBase(PrintBase(n, base), base) == Some(n)
  {
    var s := PrintBase(n, base);
    if n >= base {
      InBaseReads(n / base, base);
      QuotientAndRest(n, base);
      assert s[..|s| - 1] == PrintBase(n / base, base) && DigitOf(s[|s| - 1]) == n % base;
    }
  }

  /** The digits are these, in either case, each worth its place. */
  lemma DigitsInOrder(c: char, d: nat)
    requires d < 16
    ensures DigitOf(c) == d <==> c == "0123456789abcdef"[d] || c == "0123456789ABCDEF"[d]
  {
    var c' := c as int;
    assert '0' as int == 48 && 'a' as int == 97 && 'A' as int == 65;
  }

  /** Blank text is zero. */
  lemma BlankIsZero(text: string)
    requires Blanks(text)
    ensures ParseBigInt(text) == Some(0)
  {
    AllBlankTrims(text);
  }

  /** Only digits of the base are read, and at least one of them. */
  lemma {:induction false} InBaseAccepts(s: string, base: nat)
    requires base <= 16
    ensures InBase(s, base).Some? <==> s != "" && forall i :: 0 <= i < |s| ==> DigitOf(s[i]) < base
  {
    if |s| > 1 {
      InBaseAccepts(s[..|s| - 1], base);
    }
  }

  /** Numbers in hexadecimal, octal and binary are read back too, with no sign, ... */
  lemma ParseBased(n: nat)
    ensures ParseBigInt("0x" + PrintBase(n, 16)) == Some(n)
    ensures ParseBigInt("0o" + PrintBase(n, 8)) == Some(n)
    ensures ParseBigInt("0b" + PrintBase(n, 2)) == Some(n)
  {
    PrefixRead("0x", n, 16);
    PrefixRead("0o", n, 8);
    PrefixRead("0b", n, 2);
  }

  lemma {:induction false} PrintBaseDigits(n: nat, base: nat)
    requires 2 <= base <= 16
    ensures forall i :: 0 <= i < |PrintBase(n, base)| ==> DigitOf(PrintBase(n, base)[i]) < base
  {
    if n >= base {
      PrintBaseDigits(n / base, base);
    }
  }

  lemma PrefixRead(prefix: string, n: nat, base: nat)
    requires (prefix == "0x" && base == 16) || (prefix == "0o" && base == 8) || (prefix == "0b" && base == 2)
    ensures ParseBigInt(prefix + PrintBase(n, base)) == Some(n)
  {
    var digits := PrintBase(n, base);
    var s := prefix + digits;
    InBaseReads(n, base);
    PrintBaseDigits(n, base);
    assert DigitOf(digits[|digits| - 1]) < 16;
    assert s[0] == '0' && s[|s| - 1] == digits[|digits| - 1] && !IsBlank(s[|s| - 1]);
    assert Trim(s) == s;
    assert s[2..] == digits;
  }

  /** ... and blanks around a number do not count. */
  lemma BlanksIgnored(lead: string, text: string, trail: string)
    requires Blanks(lead) && Unpadded(text) && Blanks(trail)
    ensures ParseBigInt(lead + text + trail) == ParseBigInt(text)
  {
    TrimExactly(lead, text, trail);
    TrimExactly("", text, "");
    assert "" + text + "" == text;
  }

  // ---- The codec ----

  predicate Tagged(text: string) {
    TAG <= text
  }

  /** The replacer, applied to every value. */
  function Replace(t: Json): Json {
    match t
    case Big(n) => Str(TAG + PrintInt(n))
    case Arr(items) => Arr(seq(|items|, i requires 0 <= i < |items| => Replace(items[i])))
    case Obj(fields) =>
      Obj(seq(|fields|, i requires 0 <= i < |fields| => Field(fields[i].name, Replace(fields[i].value))))
    case _ => t
  }

  /** The reviver, applied to every value; a tagged text that is no integer throws. */
  function Revive(t: Json): Result<Json, Error> {
    match t
    case Str(text) =>
      if !Tagged(text) then Ok(t)
      else (match ParseBigInt(text[|TAG|..]) { case Some(n) => Ok(Big(n)) case None => Err(BadBigInt) })
    case Arr(items) =>
      if forall i | 0 <= i < |items| :: Revive(items[i]).Ok?
      then Ok(Arr(seq(|items|, i requires 0 <= i < |items| && Revive(items[i]).Ok? => Revive(items[i]).value)))
      else Err(BadBigInt)
    case Obj(fields) =>
      if forall i | 0 <= i < |fields| :: Revive(fields[i].value).Ok?
      then Ok(Obj(seq(|fields|, i requires 0 <= i < |fields| && Revive(fields[i].value).Ok? =>
                                Field(fields[i].name, Revive(fields[i].value).value))))
      else Err(BadBigInt)
    case _ => Ok(t)
  }

  /** No big integer anywhere: `JSON.stringify` throws on one. */
  predicate HasText(t: Json) {
    match t
    case Big(_) => false
    case Arr(items) => forall i | 0 <= i < |items| :: HasText(items[i])
    case Obj(fields) => forall i | 0 <= i < |fields| :: HasText(fields[i].value)
    case _ => true
  }

  /** Some string value in the tree carries the tag. Field names do not matter. */
  predicate HoldsTag(t: Json) {
    match t
    case Str(text) => Tagged(text)
    case Arr(items) => exists i | 0 <= i < |items| :: HoldsTag(items[i])
    case Obj(fields) => exists i | 0 <= i < |fields| :: HoldsTag(fields[i].value)
    case _ => false
  }

  lemma {:induction false} ReplacedHasText(t: Json)
    ensures HasText(Replace(t))
  {
    match t
    case Arr(items) =>
      forall i | 0 <= i < |items| ensures HasText(Replace(items[i])) { ReplacedHasText(items[i]); }
    case Obj(fields) =>
      forall i | 0 <= i < |fields| ensures HasText(Replace(fields[i].value)) { ReplacedHasText(fields[i].value); }
    case _ =>
  }

  /** The codec gives back exactly the trees in which no string carries the tag. */
  lemma {:induction false} RoundTripExactly(t: Json)
    ensures Revive(Replace(t)) == Ok(t) <==> !HoldsTag(t)
  {
    match t
    case Big(n) =>
      ParsePrinted(n);
      assert (TAG + PrintInt(n))[|TAG|..] == PrintInt(n);
      assert TAG <= TAG + PrintInt(n);
    case Arr(items) =>
      forall i | 0 <= i < |items| ensures Revive(Replace(items[i])) == Ok(items[i]) <==> !HoldsTag(items[i]) {
        RoundTripExactly(items[i]);
      }
      ItemsBack(items);
    case Obj(fields) =>
      forall i | 0 <= i < |fields|
        ensures Revive(Replace(fields[i].value)) == Ok(fields[i].value) <==> !HoldsTag(fields[i].value)
      {
        RoundTripExactly(fields[i].value);
      }
      FieldsBack(fields);
    case _ =>
  }

  /** An array comes back if and only if each item does ... */
  lemma ItemsBack(items: seq<Json>)
    ensures Revive(Replace(Arr(items))) == Ok(Arr(items))
       <==> forall i | 0 <= i < |items| :: Revive(Replace(items[i])) == Ok(items[i])
  {
    var r := Replace(Arr(items));
    assert forall i | 0 <= i < |items| :: r.items[i] == Replace(items[i]);
    var back := Revive(r);
    if back == Ok(Arr(items)) {
      forall i | 0 <= i < |items| ensures Revive(Replace(items[i])) == Ok(items[i]) {
        assert back.value.items[i] == Revive(r.items[i]).value;
      }
    }
    if forall i | 0 <= i < |items| :: Revive(Replace(items[i])) == Ok(items[i]) {
      assert back.value.items == items;
    }
  }

  /** ... and so does an object. */
  lemma FieldsBack(fields: seq<Field>)
    ensures Revive(Replace(Obj(fields))) == Ok(Obj(fields))
       <==> forall i | 0 <= i < |fields| :: Revive(Replace(fields[i].value)) == Ok(fields[i].value)
  {
    var r := Replace(Obj(fields));
    assert forall i | 0 <= i < |fields| :: r.fields[i] == Field(fields[i].name, Replace(fields[i].value));
    var back := Revive(r);
    if back == Ok(Obj(fields)) {
      forall i | 0 <= i < |fields| ensures Revive(Replace(fields[i].value)) == Ok(fields[i].value) {
        assert back.value.fields[i] == Field(fields[i].name, Revive(r.fields[i].value).value);
      }
    }
    if forall i | 0 <= i < |fields| :: Revive(Replace(fields[i].value)) == Ok(fields[i].value) {
      assert back.value.fields == fields;
    }
  }

  /** How a big integer is written: nine characters of tag and its decimal text. */
  lemma WrittenAs(n: int)
    ensures Replace(Big(n)) == Str("__bigint:" + PrintInt(n))
  {
  }

  /** Why tagged strings are excluded: such a text comes back as a number. */
  lemma TaggedTextIsForged(n: int)
    ensures Replace(Str(TAG + PrintInt(n))) == Replace(Big(n))
    ensures Revive(Replace(Str(TAG + PrintInt(n)))) == Ok(Big(n))
  {
    RoundTripExactly(Big(n));
  }
}
