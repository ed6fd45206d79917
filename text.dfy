/**
 * The few pieces of the Rust standard library the handlers lean on:
 * `str::split` with a one-character separator, `to_string` of an unsigned
 * integer and `from_str` of one. `Join` is not a library call of the
 * handlers: it specifies the dotted text their `push_str`/`push('.')` loops
 * build.
 */
module Text {
  import opened Wrappers

  /**
   * The pieces with `sep` between neighbours, none before the first or after
   * the last: the text the serialising loops build.
   */
  function Join(parts: seq<string>, sep: char): string
  {
    if |parts| == 0 then []
    else if |parts| == 1 then parts[0]
    else parts[0] + [sep] + Join(parts[1..], sep)
  }

  /**
   * `s.split(sep)`: the maximal runs of characters between separators. The
   * empty string gives one empty piece, and neighbouring separators give an
   * empty piece between them.
   */
  function Split(s: string, sep: char): (parts: seq<string>)
    ensures |parts| >= 1
    ensures forall i :: 0 <= i < |parts| ==> sep !in parts[i]
    ensures Join(parts, sep) == s
    decreases |s|
  {
    if s == [] then [[]]
    else
      var rest := Split(s[1..], sep);
      if s[0] == sep then
        assert ([[]] + rest)[1..] == rest;
        [[]] + rest
      else
        assert s == [s[0]] + s[1..];
        [[s[0]] + rest[0]] + rest[1..]
  }

  lemma {:induction false} SplitPrefix(p: string, s: string, sep: char)
    requires sep !in p
    ensures Split(p + s, sep) == [p + Split(s, sep)[0]] + Split(s, sep)[1..]
    decreases |p|
  {
    if p != [] {
      assert (p + s)[1..] == p[1..] + s;
      SplitPrefix(p[1..], s, sep);
      assert [p[0]] + (p[1..] + Split(s, sep)[0]) == p + Split(s, sep)[0];
    } else {
      var t := Split(s, sep);
      assert p + s == s;
      assert p + t[0] == t[0];
      assert [t[0]] + t[1..] == t;
    }
  }

  /** Splitting undoes joining, when no piece contains the separator. */
  lemma {:induction false} SplitJoin(parts: seq<string>, sep: char)
    requires |parts| >= 1
    requires forall i :: 0 <= i < |parts| ==> sep !in parts[i]
    ensures Split(Join(parts, sep), sep) == parts
    decreases |parts|
  {
    if |parts| == 1 {
      SplitPrefix(parts[0], [], sep);
      assert parts[0] + [] == parts[0];
    } else {
      var rest := Join(parts[1..], sep);
      SplitJoin(parts[1..], sep);
      assert parts[0] + [sep] + rest == parts[0] + ([sep] + rest);
      SplitPrefix(parts[0], [sep] + rest, sep);
      assert ([sep] + rest)[1..] == rest;
      assert Split([sep] + rest, sep) == [[]] + parts[1..];
      assert Join(parts, sep) == parts[0] + ([sep] + rest);
      assert parts[0] + [] == parts[0];
      assert parts == [parts[0]] + parts[1..];
    }
  }

  /** Joining one more piece onto a non-empty list puts one separator before it. */
  lemma {:induction false} JoinSnoc(parts: seq<string>, x: string, sep: char)
    requires |parts| >= 1
    ensures Join(parts + [x], sep) == Join(parts, sep) + [sep] + x
    decreases |parts|
  {
    if |parts| == 1 {
      assert (parts + [x])[1..] == [x];
    } else {
      assert (parts + [x])[1..] == parts[1..] + [x];
      JoinSnoc(parts[1..], x, sep);
    }
  }

  predicate IsDigit(c: char) { '0' <= c <= '9' }

  predicate AllDigits(s: string) { forall i :: 0 <= i < |s| ==> IsDigit(s[i]) }

  function DigitChar(d: nat): (c: char)
    requires d < 10
    ensures IsDigit(c)
  {
    ('0' as int + d) as char
  }

  /** ASCII decimal digits read most significant first. */
  function DigitsValue(s: string): nat
    requires AllDigits(s)
  {
    if |s| == 0 then 0
    else DigitsValue(s[..|s| - 1]) * 10 + (s[|s| - 1] as int - '0' as int)
  }

  /** `n.to_string()` for an unsigned integer: decimal, no sign, no leading zero. */
  function ShowNat(n: nat): (s: string)
    ensures |s| >= 1 && AllDigits(s)
    ensures |s| > 1 ==> s[0] != '0'
  {
    if n < 10 then [DigitChar(n)] else ShowNat(n / 10) + [DigitChar(n % 10)]
  }

  /** Reading back what `ShowNat` wrote gives the number. */
  lemma {:induction false} DigitsValueShowNat(n: nat)
    ensures DigitsValue(ShowNat(n)) == n
  {
    if n >= 10 {
      var s := ShowNat(n);
      assert s[..|s| - 1] == ShowNat(n / 10);
      DigitsValueShowNat(n / 10);
    }
  }

  /**
   * `s.parse::<uN>()` for an unsigned type whose largest value is `max`:
   * at most one leading `+`, then one or more ASCII digits (leading zeros
   * allowed) whose value does not exceed `max`. Anything else is an error.
   */
  function ParseUnsigned(s: string, max: nat): Option<nat>
  {
    var digits := if |s| > 0 && s[0] == '+' then s[1..] else s;
    if |digits| > 0 && AllDigits(digits) && DigitsValue(digits) <= max
    then Some(DigitsValue(digits))
    else None
  }

  /** Parsing undoes `to_string` for every value the type can hold. */
  lemma ParseShowNat(n: nat, max: nat)
    requires n <= max
    ensures ParseUnsigned(ShowNat(n), max) == Some(n)
  {
    DigitsValueShowNat(n);
  }
}
