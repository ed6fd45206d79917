/**
 * The two address puzzles of day 2: `from` and `key` (or `to`) are
 * dot-separated `u8` octets; `/2/dest` adds them octet by octet and
 * `/2/key` subtracts them, both wrapping modulo 256, and each writes the
 * result back in dotted decimal.
 */
module Octets {
  import opened Wrappers
  import opened Text

  type Octet = x: int | 0 <= x < 256

  /** `u8::overflowing_add`, keeping only the wrapped sum. */
  function WrappingAdd(a: Octet, b: Octet): Octet { (a + b) % 256 }

  /** `u8::overflowing_sub`, keeping only the wrapped difference. */
  function WrappingSub(a: Octet, b: Octet): Octet { (a - b) % 256 }

  lemma SubUndoesAdd(a: Octet, b: Octet)
    ensures WrappingSub(WrappingAdd(a, b), b) == a
  {
  }

  lemma AddUndoesSub(a: Octet, b: Octet)
    ensures WrappingAdd(WrappingSub(a, b), b) == a
  {
  }

  /** `o.parse::<u8>()`. */
  function ParseOctet(s: string): Option<Octet>
  {
    match ParseUnsigned(s, 255)
    case Some(n) => Some(n)
    case None => None
  }

  /** Parses every piece; fails as soon as one piece is not a `u8`. */
  function ParseAll(parts: seq<string>): (r: Option<seq<Octet>>)
    ensures r.Some? <==> forall i :: 0 <= i < |parts| ==> ParseOctet(parts[i]).Some?
    ensures r.Some? ==>
      (|r.value| == |parts| && forall i :: 0 <= i < |parts| ==> ParseOctet(parts[i]) == Some(r.value[i]))
  {
    if |parts| == 0 then Some([])
    else
      match ParseOctet(parts[0])
      case None => None
      case Some(o) =>
        match ParseAll(parts[1..])
        case None =>
          assert forall i :: 1 <= i < |parts| ==> parts[i] == parts[1..][i - 1];
          None
        case Some(os) =>
          assert forall i :: 1 <= i < |parts| ==> parts[i] == parts[1..][i - 1];
          Some([o] + os)
  }

  /** `s.split(".").map(|o| o.parse::<u8>().unwrap()).collect()`, with `None` for the panic. */
  function ParseOctets(s: string): Option<seq<Octet>>
  {
    ParseAll(Split(s, '.'))
  }

  function ShowAll(os: seq<Octet>): seq<string>
  {
    seq(|os|, i requires 0 <= i < |os| => ShowNat(os[i]))
  }

  /** The octets in decimal, joined by `.`. */
  function ShowOctets(os: seq<Octet>): string
  {
    Join(ShowAll(os), '.')
  }

  /** Reading back a dotted-decimal rendering gives the octets that were written. */
  lemma ParseShowOctets(os: seq<Octet>)
    requires |os| >= 1
    ensures ParseOctets(ShowOctets(os)) == Some(os)
  {
    var parts := ShowAll(os);
    forall i | 0 <= i < |parts|
      ensures '.' !in parts[i] && ParseOctet(parts[i]) == Some(os[i])
    {
      ParseShowNat(os[i], 255);
    }
    SplitJoin(parts, '.');
    var back := ParseAll(parts).value;
    assert back == os;
  }

  /** `true` when the string is exactly the dotted-decimal rendering of what it parses to. */
  predicate Canonical(s: string)
  {
    ParseOctets(s).Some? && ShowOctets(ParseOctets(s).value) == s
  }

  /** The octets of `/2/dest`: octet `i` of `key` plus octet `i` of `from`. */
  function SumOctets(key: seq<Octet>, from: seq<Octet>): seq<Octet>
    requires |key| <= |from|
  {
    seq(|key|, i requires 0 <= i < |key| => WrappingAdd(key[i], from[i]))
  }

  /** The octets of `/2/key`: octet `i` of `to` minus octet `i` of `from`. */
  function DifferenceOctets(to: seq<Octet>, from: seq<Octet>): seq<Octet>
    requires |to| <= |from|
  {
    seq(|to|, i requires 0 <= i < |to| => WrappingSub(to[i], from[i]))
  }

  /** Subtracting `from` octet by octet undoes adding it. */
  lemma DifferenceUndoesSum(key: seq<Octet>, from: seq<Octet>)
    requires |key| <= |from|
    ensures |SumOctets(key, from)| == |key|
    ensures DifferenceOctets(SumOctets(key, from), from) == key
  {
    var d := SumOctets(key, from);
    forall i | 0 <= i < |key| ensures DifferenceOctets(d, from)[i] == key[i] {
      SubUndoesAdd(key[i], from[i]);
    }
  }

  /** Adding `from` octet by octet undoes subtracting it. */
  lemma SumUndoesDifference(to: seq<Octet>, from: seq<Octet>)
    requires |to| <= |from|
    ensures |DifferenceOctets(to, from)| == |to|
    ensures SumOctets(DifferenceOctets(to, from), from) == to
  {
    var k := DifferenceOctets(to, from);
    forall i | 0 <= i < |to| ensures SumOctets(k, from)[i] == to[i] {
      AddUndoesSub(to[i], from[i]);
    }
  }

  /** A handler either answers with a text body or panics (an `unwrap` or an index out of bounds). */
  datatype Reply = Body(text: string) | Panic

  /** What `/2/dest?from=..&key=..` answers. */
  function Dest(from: string, key: string): Reply
  {
    match (ParseOctets(from), ParseOctets(key))
    case (Some(f), Some(k)) => if |f| < |k| then Panic else Body(ShowOctets(SumOctets(k, f)))
    case _ => Panic
  }

  /** What `/2/key?from=..&to=..` answers. */
  function Key(from: string, to: string): Reply
  {
    match (ParseOctets(from), ParseOctets(to))
    case (Some(f), Some(t)) => if |f| < |t| then Panic else Body(ShowOctets(DifferenceOctets(t, f)))
    case _ => Panic
  }

  /**
   * `/2/dest` panics exactly when a piece of either input is not a `u8` or
   * `from` has fewer octets than `key`.
   */
  lemma DestPanics(from: string, key: string)
    ensures Dest(from, key).Panic? <==>
      (ParseOctets(from).None? || ParseOctets(key).None?
       || |ParseOctets(from).value| < |ParseOctets(key).value|)
  {
  }

  /**
   * Otherwise its body reads back as the octet-wise wrapped sums, one per
   * octet of `key`; octets of `from` beyond those are ignored.
   */
  lemma DestOctetwise(from: string, key: string, f: seq<Octet>, k: seq<Octet>)
    requires ParseOctets(from) == Some(f) && ParseOctets(key) == Some(k) && |k| <= |f|
    ensures Dest(from, key) == Body(ShowOctets(SumOctets(k, f)))
    ensures ParseOctets(Dest(from, key).text) == Some(SumOctets(k, f))
    ensures |SumOctets(k, f)| == |k|
    ensures forall i :: 0 <= i < |k| ==> SumOctets(k, f)[i] == (k[i] as int + f[i]) % 256
  {
    assert |k| >= 1 by { assert |Split(key, '.')| >= 1; }
    ParseShowOctets(SumOctets(k, f));
  }

  /**
   * `/2/key` panics exactly when a piece of either input is not a `u8` or
   * `from` has fewer octets than `to`.
   */
  lemma KeyPanics(from: string, to: string)
    ensures Key(from, to).Panic? <==>
      (ParseOctets(from).None? || ParseOctets(to).None?
       || |ParseOctets(from).value| < |ParseOctets(to).value|)
  {
  }

  /** Otherwise its body reads back as the octet-wise wrapped differences, one per octet of `to`. */
  lemma KeyOctetwise(from: string, to: string, f: seq<Octet>, t: seq<Octet>)
    requires ParseOctets(from) == Some(f) && ParseOctets(to) == Some(t) && |t| <= |f|
    ensures Key(from, to) == Body(ShowOctets(DifferenceOctets(t, f)))
    ensures ParseOctets(Key(from, to).text) == Some(DifferenceOctets(t, f))
    ensures |DifferenceOctets(t, f)| == |t|
    ensures forall i :: 0 <= i < |t| ==> DifferenceOctets(t, f)[i] == (t[i] as int - f[i]) % 256
  {
    assert |t| >= 1 by { assert |Split(to, '.')| >= 1; }
    ParseShowOctets(DifferenceOctets(t, f));
  }

  /**
   * Recovering the key: feeding what `/2/dest` answered back to `/2/key` with
   * the same `from` answers the key in dotted decimal, which is the key
   * string itself when it was written without leading zeros or `+`.
   */
  lemma KeyUndoesDest(from: string, key: string)
    requires Dest(from, key).Body?
    ensures Key(from, Dest(from, key).text) == Body(ShowOctets(ParseOctets(key).value))
    ensures Canonical(key) ==> Key(from, Dest(from, key).text) == Body(key)
  {
    var f, k := ParseOctets(from).value, ParseOctets(key).value;
    assert |k| >= 1 by { assert |Split(key, '.')| >= 1; }
    var d := SumOctets(k, f);
    assert Dest(from, key) == Body(ShowOctets(d));
    ParseShowOctets(d);
    DifferenceUndoesSum(k, f);
    assert Key(from, ShowOctets(d)) == Body(ShowOctets(DifferenceOctets(d, f)));
  }

  /** Recovering the destination: `/2/dest` undoes `/2/key` in the same way. */
  lemma DestUndoesKey(from: string, to: string)
    requires Key(from, to).Body?
    ensures Dest(from, Key(from, to).text) == Body(ShowOctets(ParseOctets(to).value))
    ensures Canonical(to) ==> Dest(from, Key(from, to).text) == Body(to)
  {
    var f, t := ParseOctets(from).value, ParseOctets(to).value;
    assert |t| >= 1 by { assert |Split(to, '.')| >= 1; }
    var k := DifferenceOctets(t, f);
    assert Key(from, to) == Body(ShowOctets(k));
    ParseShowOctets(k);
    SumUndoesDifference(t, f);
    assert Dest(from, ShowOctets(k)) == Body(ShowOctets(SumOctets(k, f)));
  }

  /** The dotted text of one more octet: the octet alone, or a dot and the octet after the text so far. */
  lemma DottedStep(os: seq<Octet>, i: nat)
    requires i < |os|
    ensures Join(ShowAll(os[..i + 1]), '.') ==
      if i == 0 then ShowNat(os[0]) else Join(ShowAll(os[..i]), '.') + "." + ShowNat(os[i])
  {
    assert ShowAll(os[..i + 1]) == ShowAll(os[..i]) + [ShowNat(os[i])];
    if i > 0 {
      JoinSnoc(ShowAll(os[..i]), ShowNat(os[i]), '.');
    }
  }

  /** The loop that writes each octet and a `.` after every one but the last. */
  method WriteDotted(os: seq<Octet>) returns (s: string)
    ensures s == ShowOctets(os)
  {
    s := [];
    for i := 0 to |os|
      invariant s == Join(ShowAll(os[..i]), '.') + (if 0 < i < |os| then "." else "")
    {
      DottedStep(os, i);
      ghost var before := s;
      s := s + ShowNat(os[i]);
      assert s == Join(ShowAll(os[..i + 1]), '.') by {
        if i > 0 {
          assert before == Join(ShowAll(os[..i]), '.') + ".";
        }
      }
      if i < |os| - 1 {
        s := s + ".";
      }
    }
    assert os[..|os|] == os;
  }

  /**
   * The loop of `day2_task1` that adds octet by octet; `None` where indexing
   * `from` past its end panics.
   */
  method AddOctetwise(key: seq<Octet>, from: seq<Octet>) returns (dest: Option<seq<Octet>>)
    ensures dest == if |key| <= |from| then Some(SumOctets(key, from)) else None
  {
    var sums: seq<Octet> := [];
    for i := 0 to |key|
      invariant i <= |from|
      invariant |sums| == i
      invariant forall j :: 0 <= j < i ==> sums[j] == WrappingAdd(key[j], from[j])
    {
      if i >= |from| { return None; }
      sums := sums + [WrappingAdd(key[i], from[i])];
    }
    assert sums == SumOctets(key, from);
    return Some(sums);
  }

  /** The loop of `day2_task2` that subtracts octet by octet, `None` where it panics. */
  method SubtractOctetwise(to: seq<Octet>, from: seq<Octet>) returns (key: Option<seq<Octet>>)
    ensures key == if |to| <= |from| then Some(DifferenceOctets(to, from)) else None
  {
    var diffs: seq<Octet> := [];
    for i := 0 to |to|
      invariant i <= |from|
      invariant |diffs| == i
      invariant forall j :: 0 <= j < i ==> diffs[j] == WrappingSub(to[j], from[j])
    {
      if i >= |from| { return None; }
      diffs := diffs + [WrappingSub(to[i], from[i])];
    }
    assert diffs == DifferenceOctets(to, from);
    return Some(diffs);
  }

  /** `day2_task1`. */
  method Day2Task1(from: string, key: string) returns (r: Reply)
    ensures r == Dest(from, key)
  {
    var fromParsed := ParseOctets(from);
    var keyParsed := ParseOctets(key);
    if fromParsed.None? || keyParsed.None? {
      return Panic;
    }
    var dest := AddOctetwise(keyParsed.value, fromParsed.value);
    if dest.None? {
      return Panic;
    }
    var text := WriteDotted(dest.value);
    r := Body(text);
  }

  /** `day2_task2`. */
  method Day2Task2(from: string, to: string) returns (r: Reply)
    ensures r == Key(from, to)
  {
    var fromParsed := ParseOctets(from);
    var toParsed := ParseOctets(to);
    if fromParsed.None? || toParsed.None? {
      return Panic;
    }
    var key := SubtractOctetwise(toParsed.value, fromParsed.value);
    if key.None? {
      return Panic;
    }
    var text := WriteDotted(key.value);
    r := Body(text);
  }

  lemma ShowSmallValues()
    ensures ShowNat(0) == "0" && ShowNat(1) == "1" && ShowNat(2) == "2" && ShowNat(3) == "3"
    ensures ShowNat(10) == "10" && ShowNat(11) == "11" && ShowNat(255) == "255"
  {
    assert ShowNat(1) == "1";
    assert ShowNat(25) == "25";
  }

  /** Octets whose decimal texts are `parts` are written as `s`, and `s` reads back as them. */
  lemma ReadsBack(os: seq<Octet>, parts: seq<string>, s: string)
    requires |os| == |parts| >= 1 && forall i :: 0 <= i < |os| ==> ShowNat(os[i]) == parts[i]
    requires Join(parts, '.') == s
    ensures ShowOctets(os) == s
    ensures ParseOctets(s) == Some(os)
  {
    assert ShowAll(os) == parts;
    ParseShowOctets(os);
  }

  lemma JoinFour(a: string, b: string, c: string, d: string)
    ensures Join([a, b, c, d], '.') == a + "." + b + "." + c + "." + d
  {
    assert [a, b, c, d][1..] == [b, c, d];
    assert [b, c, d][1..] == [c, d];
    assert [c, d][1..] == [d];
    assert Join([c, d], '.') == c + "." + d;
    assert Join([b, c, d], '.') == b + "." + (c + "." + d);
    assert Join([a, b, c, d], '.') == a + "." + (b + "." + (c + "." + d));
  }

  lemma FromInstance()
    ensures ShowOctets([10, 0, 0, 0]) == "10.0.0.0" && ParseOctets("10.0.0.0") == Some([10, 0, 0, 0])
  {
    ShowSmallValues();
    JoinFour("10", "0", "0", "0");
    ReadsBack([10, 0, 0, 0], ["10", "0", "0", "0"], "10.0.0.0");
  }

  lemma KeyInstance()
    ensures ShowOctets([1, 2, 3, 255]) == "1.2.3.255" && ParseOctets("1.2.3.255") == Some([1, 2, 3, 255])
  {
    ShowSmallValues();
    JoinFour("1", "2", "3", "255");
    ReadsBack([1, 2, 3, 255], ["1", "2", "3", "255"], "1.2.3.255");
  }

  lemma DestInstance()
    ensures ShowOctets([11, 2, 3, 255]) == "11.2.3.255" && ParseOctets("11.2.3.255") == Some([11, 2, 3, 255])
  {
    ShowSmallValues();
    JoinFour("11", "2", "3", "255");
    ReadsBack([11, 2, 3, 255], ["11", "2", "3", "255"], "11.2.3.255");
  }

  lemma ArithmeticInstance()
    ensures SumOctets([1, 2, 3, 255], [10, 0, 0, 0]) == [11, 2, 3, 255]
    ensures DifferenceOctets([11, 2, 3, 255], [10, 0, 0, 0]) == [1, 2, 3, 255]
  {
  }

  /** The instance the endpoint tests pin down: 10.0.0.0 + 1.2.3.255 = 11.2.3.255, and back. */
  lemma TestInstance()
    ensures Dest("10.0.0.0", "1.2.3.255") == Body("11.2.3.255")
    ensures Key("10.0.0.0", "11.2.3.255") == Body("1.2.3.255")
  {
    FromInstance();
    KeyInstance();
    DestInstance();
    ArithmeticInstance();
    DestOctetwise("10.0.0.0", "1.2.3.255", [10, 0, 0, 0], [1, 2, 3, 255]);
    KeyOctetwise("10.0.0.0", "11.2.3.255", [10, 0, 0, 0], [11, 2, 3, 255]);
  }
}
