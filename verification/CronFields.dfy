/**
 The fields of a calendar expression: how they are written, which values they admit, and which numbers the digits mean.
 */
module CronFields {
  import opened Wrappers
  import Canonical

  datatype Field = Any | Only(values: set<int>)

  predicate Admits(f: Field, v: int) {
    f.Any? || v in f.values
  }

  const MaxInt: int := 0x7fff_ffff_ffff_ffff

  // ---------------------------------------------------------------- text

  predicate Digit(c: char) {
    '0' <= c <= '9'
  }

  predicate Digits(s: string) {
    s != "" && forall i | 0 <= i < |s| :: Digit(s[i])
  }

  function Value(s: string): nat
    requires forall i | 0 <= i < |s| :: Digit(s[i])
  {
    if s == "" then 0
    else
      assert Digit(s[|s| - 1]);
      10 * Value(s[..|s| - 1]) + (s[|s| - 1] as int - '0' as int)
  }

  /** A decimal number with an optional sign, within 64 bits. */
  function ParseInt(s: string): Option<int> {
    if s != "" && s[0] == '-' then
      (if Digits(s[1..]) && Value(s[1..]) <= MaxInt + 1 then Some(0 - Value(s[1..]) as int) else None)
    else
      var digits := if s != "" && s[0] == '+' then s[1..] else s;
      if Digits(digits) && Value(digits) <= MaxInt then Some(Value(digits)) else None
  }

  /** A comma begins a part, any other character lengthens the last one. */
  function AddToParts(parts: seq<string>, c: char): (more: seq<string>)
    requires parts != []
    ensures more != []
  {
    if c == ',' then parts + [""] else parts[..|parts| - 1] + [parts[|parts| - 1] + [c]]
  }

  /** The parts between the commas, at least one. */
  function Split(s: string): (parts: seq<string>)
    ensures parts != []
  {
    if s == "" then [""] else AddToParts(Split(s[..|s| - 1]), s[|s| - 1])
  }

  /** Splitting loses nothing. */
  lemma {:induction false} SplitJoins(s: string)
    ensures Canonical.Join(Split(s), ',') == s
  {
    if s != "" {
      var rest, c := s[..|s| - 1], s[|s| - 1];
      SplitJoins(rest);
      assert s == rest + [c];
      var n := |Split(rest)| - 1;
      if c == ',' {
        Canonical.JoinAppend(Split(rest), "", ',');
      } else {
        assert Split(rest) == Split(rest)[..n] + [Split(rest)[n]];
        Canonical.JoinExtend(Split(rest)[..n], Split(rest)[n], [c], ',');
      }
    }
  }

  /** No part has a comma in it. */
  lemma {:induction false} PartsHaveNoComma(s: string)
    ensures forall i | 0 <= i < |Split(s)| :: ',' !in Split(s)[i]
  {
    if s != "" { PartsHaveNoComma(s[..|s| - 1]); }
  }

  /** White space as Unicode has it. */
  predicate Space(c: char) {
    '\t' <= c <= '\r' || c in " \U{0085}\U{00A0}\U{1680}\U{2028}\U{2029}\U{202F}\U{205F}\U{3000}" || '\U{2000}' <= c <= '\U{200A}'
  }

  predicate EndsInWord(s: string) {
    s != "" && !Space(s[|s| - 1])
  }

  /** The next character begins a word, lengthens the last one, or is white space. */
  function AddChar(words: seq<string>, inWord: bool, c: char): seq<string>
    requires inWord ==> words != []
  {
    if Space(c) then words
    else if !inWord then words + [[c]]
    else words[..|words| - 1] + [words[|words| - 1] + [c]]
  }

  /** The words between stretches of white space. */
  function Words(s: string): (words: seq<string>)
    ensures EndsInWord(s) ==> words != []
  {
    if s == "" then [] else AddChar(Words(s[..|s| - 1]), EndsInWord(s[..|s| - 1]), s[|s| - 1])
  }

  predicate Word(w: string) {
    w != "" && forall i | 0 <= i < |w| :: !Space(w[i])
  }

  /** A word is split no further. */
  lemma {:induction false} WordAlone(w: string)
    requires Word(w)
    ensures Words(w) == [w]
  {
    var rest := w[..|w| - 1];
    assert w == rest + [w[|w| - 1]];
    if rest != "" { WordAlone(rest); }
  }

  lemma AddCharAfter(before: seq<string>, words: seq<string>, inWord: bool, c: char)
    requires inWord ==> words != []
    ensures AddChar(before + words, inWord, c) == before + AddChar(words, inWord, c)
  {
  }

  /** Texts on both sides of white space are split apart. */
  lemma {:induction false} WordsApart(s: string, space: char, t: string)
    requires Space(space)
    ensures Words(s + [space] + t) == Words(s) + Words(t)
    decreases |t|
  {
    if t == "" {
      WordsOf(s, space);
      assert s + [space] + t == s + [space];
    } else {
      var rest, c := t[..|t| - 1], t[|t| - 1];
      assert t == rest + [c] && s + [space] + t == s + [space] + rest + [c];
      WordsApart(s, space, rest);
      WordsOf(rest, c);
      WordsOf(s + [space] + rest, c);
      assert EndsInWord(s + [space] + rest) == EndsInWord(rest);
      AddCharAfter(Words(s), Words(rest), EndsInWord(rest), c);
    }
  }

  lemma WordsOf(s: string, c: char)
    ensures Words(s + [c]) == AddChar(Words(s), EndsInWord(s), c)
  {
    assert (s + [c])[..|s|] == s;
  }

  /** Words written with a blank between them are read back. */
  lemma {:induction false} WordsOfJoined(words: seq<string>)
    requires forall i | 0 <= i < |words| :: Word(words[i])
    ensures Words(Canonical.Join(words, ' ')) == words
  {
    if |words| == 1 {
      WordAlone(words[0]);
    } else if words != [] {
      WordAlone(words[0]);
      WordsOfJoined(words[1..]);
      WordsApart(words[0], ' ', Canonical.Join(words[1..], ' '));
    }
  }

  // ---------------------------------------------------------------- one field

  predicate IsStep(part: string) {
    |part| >= 2 && part[..2] == "*/"
  }

  /** A part is a step of at least one, or a number within the bounds. */
  predicate PartFits(part: string, min: int, max: int) {
    if IsStep(part) then ParseInt(part[2..]).Some? && ParseInt(part[2..]).value > 0
    else ParseInt(part).Some? && min <= ParseInt(part).value <= max
  }

  predicate PartAdmits(part: string, min: int, v: int)
    requires IsStep(part) ==> ParseInt(part[2..]).Some? && ParseInt(part[2..]).value > 0
  {
    if IsStep(part) then v >= min && (v - min) % ParseInt(part[2..]).value == 0 else ParseInt(part) == Some(v)
  }

  /** The field is written correctly: a lone asterisk, or parts that all fit. */
  predicate FieldFits(field: string, min: int, max: int) {
    field == "*" || forall i | 0 <= i < |Split(field)| :: PartFits(Split(field)[i], min, max)
  }

  predicate PartsFit(parts: seq<string>, n: nat, min: int, max: int) {
    n <= |parts| && forall i | 0 <= i < n :: PartFits(parts[i], min, max)
  }

  /** One of the first n parts admits the value. */
  predicate SomePartAdmits(parts: seq<string>, n: nat, min: int, max: int, v: int)
    requires PartsFit(parts, n, min, max)
  {
    exists i | 0 <= i < n :: PartAdmits(parts[i], min, v)
  }

  lemma SomePartStep(parts: seq<string>, n: nat, min: int, max: int, v: int)
    requires PartsFit(parts, n + 1, min, max)
    ensures SomePartAdmits(parts, n + 1, min, max, v) <==> SomePartAdmits(parts, n, min, max, v) || PartAdmits(parts[n], min, v)
  {
  }

  /** What the text of the field means for a value within the bounds. */
  predicate Means(field: string, min: int, max: int, v: int)
    requires FieldFits(field, min, max)
  {
    field == "*" || SomePartAdmits(Split(field), |Split(field)|, min, max, v)
  }

  lemma NextMultiple(min: int, k: nat, step: nat, v: int)
    requires step > 0 && min + k * step <= v < min + (k + 1) * step
    ensures (v - min) % step == 0 <==> v == min + k * step
  {
    var r := v - min - k * step;
    assert (v - min) == k * step + r;
    assert (v - min) % step == r by { RemainderOf(k, step, r); }
  }

  lemma RemainderOf(k: nat, step: nat, r: nat)
    requires r < step
    ensures (k * step + r) % step == r
  {
    var n := k * step + r;
    var q := n / step;
    assert n == q * step + n % step;
    ProductOrder(q, k - 1, step);
    ProductOrder(k + 1, q, step);
    assert (k - 1) * step == k * step - step && (k + 1) * step == k * step + step;
  }

  /** Adds the values of a step: min, min + step, and so on up to max. */
  method AddSteps(values: set<int>, min: int, max: int, step: int) returns (all: set<int>)
    requires step > 0
    ensures forall v :: v in all <==> v in values || (min <= v <= max && (v - min) % step == 0)
  {
    all := values;
    var v := min;
    ghost var k := 0;
    while v <= max
      invariant v == min + k * step
      invariant forall u :: u in all <==> u in values || (min <= u <= max && u < v && (u - min) % step == 0)
      decreases max - v
    {
      ghost var before := all;
      all := all + {v};
      forall u ensures u in all <==> u in values || (min <= u <= max && u < v + step && (u - min) % step == 0) {
        if v <= u < v + step { NextMultiple(min, k, step, u); }
      }
      v := v + step;
      k := k + 1;
    }
  }

  /** Accepts exactly the fields that are written correctly, and admits exactly the values they mean. */
  method ParseField(field: string, min: int, max: int) returns (result: Option<Field>)
    requires min <= max
    ensures result.Some? <==> FieldFits(field, min, max)
    ensures result.Some? ==> forall v | min <= v <= max :: Admits(result.value, v) <==> Means(field, min, max, v)
    ensures result.Some? ==> exists v | min <= v <= max :: Admits(result.value, v)
  {
    if field == "*" {
      assert Admits(Any, min);
      return Some(Any);
    }
    var parts := Split(field);
    var values: set<int> := {};
    for i := 0 to |parts|
      invariant PartsFit(parts, i, min, max)
      invariant forall v | min <= v <= max :: v in values <==> SomePartAdmits(parts, i, min, max, v)
      invariant i > 0 ==> exists v | min <= v <= max :: v in values
    {
      var added := AddPart(values, parts[i], min, max);
      if added.None? { return None; }
      forall v | min <= v <= max && PartsFit(parts, i + 1, min, max)
        ensures v in added.value <==> SomePartAdmits(parts, i + 1, min, max, v)
      {
        SomePartStep(parts, i, min, max, v);
      }
      values := added.value;
    }
    ghost var some :| min <= some <= max && some in values;
    assert Admits(Only(values), some);
    return Some(Only(values));
  }

  method AddPart(values: set<int>, part: string, min: int, max: int) returns (result: Option<set<int>>)
    requires min <= max
    ensures result.Some? <==> PartFits(part, min, max)
    ensures result.Some? ==> forall v | min <= v <= max :: v in result.value <==> v in values || PartAdmits(part, min, v)
    ensures result.Some? ==> exists v | min <= v <= max :: v in result.value
  {
    if IsStep(part) {
      var step := ParseInt(part[2..]);
      if step.None? || step.value <= 0 { return None; }
      var all := AddSteps(values, min, max, step.value);
      assert (min - min) % step.value == 0;
      assert min in all;
      return Some(all);
    }
    var v := ParseInt(part);
    if v.None? || v.value < min || v.value > max { return None; }
    assert v.value in values + {v.value};
    return Some(values + {v.value});
  }

  // ---------------------------------------------------------------- what a written number means

  /** The decimal digits of a number, without leading zeros. */
  function Decimal(n: nat): string {
    (if n < 10 then "" else Decimal(n / 10)) + ["0123456789"[n % 10]]
  }

  lemma {:induction false} DecimalIsDigits(n: nat)
    ensures Digits(Decimal(n)) && Value(Decimal(n)) == n
  {
    var s := Decimal(n);
    if n >= 10 { DecimalIsDigits(n / 10); }
    var front := if n < 10 then "" else Decimal(n / 10);
    assert s[..|s| - 1] == front && s[|s| - 1] == "0123456789"[n % 10];
    assert forall i | 0 <= i < |front| :: s[i] == front[i];
  }

  /** A number is read as it is written, with or without a sign, if it fits into 64 bits. */
  lemma ParseDecimal(n: nat)
    ensures ParseInt(Decimal(n)) == ParseInt("+" + Decimal(n)) == if n <= 0x7fff_ffff_ffff_ffff then Some(n) else None
    ensures ParseInt("-" + Decimal(n)) == if n <= 0x8000_0000_0000_0000 then Some(0 - n as int) else None
  {
    DecimalIsDigits(n);
    ParseDigits(Decimal(n));
  }

  lemma ParseDigits(s: string)
    requires Digits(s)
    ensures ParseInt(s) == if Value(s) <= MaxInt then Some(Value(s)) else None
    ensures ParseInt("+" + s) == ParseInt(s)
    ensures ParseInt("-" + s) == if Value(s) <= MaxInt + 1 then Some(0 - Value(s) as int) else None
  {
    assert Digit(s[0]);
    assert ("+" + s)[1..] == s && ("-" + s)[1..] == s;
  }

  /** A text without comma is one part. */
  lemma {:induction false} SplitAlone(s: string)
    requires ',' !in s
    ensures Split(s) == [s]
  {
    if s != "" {
      var rest, c := s[..|s| - 1], s[|s| - 1];
      assert s == rest + [c];
      SplitAlone(rest);
      SplitOf(rest, c);
    }
  }

  lemma SplitOf(s: string, c: char)
    ensures Split(s + [c]) == AddToParts(Split(s), c)
  {
    assert (s + [c])[..|s|] == s;
  }

  lemma AddToLast(before: seq<string>, parts: seq<string>, c: char)
    requires parts != []
    ensures AddToParts(before + parts, c) == before + AddToParts(parts, c)
  {
  }

  lemma {:induction false} SplitApart(s: string, t: string)
    ensures Split(s + [','] + t) == Split(s) + Split(t)
    decreases |t|
  {
    if t == "" {
      assert s + [','] + t == s + [','];
      SplitOf(s, ',');
    } else {
      var rest, c := t[..|t| - 1], t[|t| - 1];
      assert t == rest + [c] && s + [','] + t == s + [','] + rest + [c];
      SplitApart(s, rest);
      SplitOf(s + [','] + rest, c);
      SplitOf(rest, c);
      AddToLast(Split(s), Split(rest), c);
    }
  }

  /** Parts without comma written with commas between them are read back. */
  lemma {:induction false} SplitOfJoined(parts: seq<string>)
    requires parts != [] && forall i | 0 <= i < |parts| :: ',' !in parts[i]
    ensures Split(Canonical.Join(parts, ',')) == parts
  {
    SplitAlone(parts[0]);
    if |parts| > 1 {
      SplitOfJoined(parts[1..]);
      SplitApart(parts[0], Canonical.Join(parts[1..], ','));
    }
  }

  lemma DigitsAreNoStep(s: string)
    requires Digits(s)
    ensures !IsStep(s) && ',' !in s && s != "*"
  {
    assert Digit(s[0]);
    assert forall i | 0 <= i < |s| :: Digit(s[i]) && s[i] != ',';
  }

  /** A written number is a part that admits this number alone. */
  lemma NumberPart(n: nat, min: int, max: int, v: int)
    requires max <= 0x7fff_ffff_ffff_ffff
    ensures PartFits(Decimal(n), min, max) <==> min <= n <= max
    ensures min <= n <= max ==> (PartAdmits(Decimal(n), min, v) <==> v == n)
  {
    DecimalIsDigits(n);
    DigitsAreNoStep(Decimal(n));
    ParseDecimal(n);
  }

  function Decimals(ns: seq<nat>): seq<string> {
    seq(|ns|, i requires 0 <= i < |ns| => Decimal(ns[i]))
  }

  lemma DecimalHasNoComma(n: nat)
    ensures ',' !in Decimal(n) && !IsStep(Decimal(n)) && Decimal(n) != "*"
  {
    DecimalIsDigits(n);
    DigitsAreNoStep(Decimal(n));
  }

  lemma SplitOfDecimals(ns: seq<nat>)
    requires ns != []
    ensures Split(Canonical.Join(Decimals(ns), ',')) == Decimals(ns) && Canonical.Join(Decimals(ns), ',') != "*"
  {
    forall i | 0 <= i < |ns| ensures ',' !in Decimals(ns)[i] { DecimalHasNoComma(ns[i]); }
    SplitOfJoined(Decimals(ns));
    SplitAlone("*");
    DecimalHasNoComma(ns[0]);
    assert Decimals(ns)[0] == Decimal(ns[0]);
  }

  /** A list of numbers is a field that admits exactly these numbers. */
  lemma NumbersFit(ns: seq<nat>, min: int, max: int)
    requires ns != [] && max <= 0x7fff_ffff_ffff_ffff
    ensures FieldFits(Canonical.Join(Decimals(ns), ','), min, max) <==> forall i | 0 <= i < |ns| :: min <= ns[i] <= max
  {
    SplitOfDecimals(ns);
    forall i | 0 <= i < |ns| ensures PartFits(Decimals(ns)[i], min, max) <==> min <= ns[i] <= max { NumberPart(ns[i], min, max, min); }
  }

  lemma NumbersMean(ns: seq<nat>, min: int, max: int, v: int)
    requires ns != [] && max <= 0x7fff_ffff_ffff_ffff && forall i | 0 <= i < |ns| :: min <= ns[i] <= max
    ensures var field := Canonical.Join(Decimals(ns), ',');
            FieldFits(field, min, max) && (Means(field, min, max, v) <==> exists i | 0 <= i < |ns| :: ns[i] == v)
  {
    NumbersFit(ns, min, max);
    SplitOfDecimals(ns);
    var parts := Decimals(ns);
    forall i | 0 <= i < |ns| ensures PartAdmits(parts[i], min, v) <==> ns[i] == v {
      assert PartFits(parts[i], min, max);
      NumberPart(ns[i], min, max, v);
    }
    if i :| 0 <= i < |ns| && ns[i] == v { assert PartAdmits(parts[i], min, v); }
  }

  lemma StepPart(n: nat)
    requires 1 <= n <= 0x7fff_ffff_ffff_ffff
    ensures var part := ['*', '/'] + Decimal(n);
            IsStep(part) && ParseInt(part[2..]) == Some(n) && ',' !in part && part != "*"
  {
    var part := ['*', '/'] + Decimal(n);
    DecimalHasNoComma(n);
    ParseDecimal(n);
    assert part[..2] == "*/" && part[2..] == Decimal(n);
    assert |part| >= 2;
  }

  lemma MultiplesOf(d: int, n: nat)
    requires n >= 1 && d >= 0
    ensures d % n == 0 <==> exists k: nat :: d == k * n
  {
    if d % n == 0 { assert d == (d / n) * n; }
    if k: nat :| d == k * n { RemainderOf(k, n, 0); }
  }

  /** A field of one part means what the part does. */
  lemma OnePart(part: string, min: int, max: int, v: int)
    requires ',' !in part && part != "*" && PartFits(part, min, max)
    ensures FieldFits(part, min, max) && (Means(part, min, max, v) <==> PartAdmits(part, min, v))
  {
    SplitAlone(part);
    assert Split(part)[0] == part;
    if PartAdmits(part, min, v) { assert PartAdmits(Split(part)[0], min, v); }
  }

  /** An asterisk with a step admits the lower bound and every n-th value after it. */
  lemma StepMeans(n: nat, min: int, max: int, v: int)
    requires 1 <= n <= 0x7fff_ffff_ffff_ffff && min <= v
    ensures var field := ['*', '/'] + Decimal(n);
            FieldFits(field, min, max) && (Means(field, min, max, v) <==> exists k: nat :: v - min == k * n)
  {
    StepPart(n);
    OnePart(['*', '/'] + Decimal(n), min, max, v);
    MultiplesOf(v - min, n);
  }

  /** A written number admits itself. */
  lemma OneNumberMeans(n: nat, min: int, max: int, v: int)
    requires min <= n <= max <= 0x7fff_ffff_ffff_ffff
    ensures FieldFits(Decimal(n), min, max) && (Means(Decimal(n), min, max, v) <==> v == n)
  {
    DecimalHasNoComma(n);
    NumberPart(n, min, max, v);
    OnePart(Decimal(n), min, max, v);
  }
}
