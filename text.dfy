/** Text helpers the list handler needs: the case-insensitive name match and
    JavaScript's `Number(...)` applied to a query-string value. */
module Text {
  import opened Wrappers

  /** Lower-cases an ASCII capital letter; every other character is kept. */
  function Lower(c: char): char {
    if 'A' <= c <= 'Z' then (c as int + 32) as char else c
  }

  /** `s` with every character lower-cased. */
  function Lowered(s: string): (r: string)
    ensures |r| == |s|
    ensures forall i :: 0 <= i < |s| ==> r[i] == Lower(s[i])
  {
    if s == [] then [] else [Lower(s[0])] + Lowered(s[1..])
  }

  /** `needle` occurs in `hay` starting at position `i`. */
  ghost predicate OccursAt(hay: string, needle: string, i: int) {
    0 <= i && i + |needle| <= |hay| && hay[i..i + |needle|] == needle
  }

  /** Left-to-right search for `needle` as a contiguous block of `hay`. */
  function Contains(hay: string, needle: string): bool
    decreases |hay|
  {
    if needle <= hay then true
    else if hay == [] then false
    else Contains(hay[1..], needle)
  }

  lemma {:induction false} ContainsIff(hay: string, needle: string)
    ensures Contains(hay, needle) <==> exists i :: OccursAt(hay, needle, i)
    decreases |hay|
  {
    if needle <= hay {
      assert OccursAt(hay, needle, 0);
    } else if hay == [] {
      assert needle != [];
      forall i ensures !OccursAt(hay, needle, i) { }
    } else {
      var tail := hay[1..];
      ContainsIff(tail, needle);
      forall i ensures OccursAt(tail, needle, i) <==> OccursAt(hay, needle, i + 1) {
        if 0 <= i && i + |needle| <= |tail| {
          assert tail[i..i + |needle|] == hay[i + 1..i + 1 + |needle|];
        }
      }
      assert !OccursAt(hay, needle, 0);
      if Contains(hay, needle) {
        var i :| OccursAt(tail, needle, i);
        assert OccursAt(hay, needle, i + 1);
      }
      if exists i :: OccursAt(hay, needle, i) {
        var i :| OccursAt(hay, needle, i);
        assert i != 0;
        assert OccursAt(tail, needle, i - 1);
      }
    }
  }

  /** `needle` matches `hay` at position `i` when both are compared letter by
      letter without regard to ASCII case. */
  ghost predicate MatchesAt(hay: string, needle: string, i: int) {
    0 <= i && i + |needle| <= |hay| &&
    forall k :: 0 <= k < |needle| ==> Lower(hay[i + k]) == Lower(needle[k])
  }

  /** The name filter's test: `needle` occurs in `hay`, ignoring ASCII case. */
  predicate ContainsIgnoringCase(hay: string, needle: string) {
    Contains(Lowered(hay), Lowered(needle))
  }

  lemma ContainsIgnoringCaseIff(hay: string, needle: string)
    ensures ContainsIgnoringCase(hay, needle) <==> exists i :: MatchesAt(hay, needle, i)
  {
    var h, n := Lowered(hay), Lowered(needle);
    ContainsIff(h, n);
    forall i ensures OccursAt(h, n, i) <==> MatchesAt(hay, needle, i) {
      if 0 <= i && i + |needle| <= |hay| {
        if OccursAt(h, n, i) {
          forall k | 0 <= k < |needle| ensures Lower(hay[i + k]) == Lower(needle[k]) {
            assert h[i..i + |n|][k] == n[k];
          }
        }
        if MatchesAt(hay, needle, i) {
          assert h[i..i + |n|] == n;
        }
      }
    }
    if ContainsIgnoringCase(hay, needle) {
      var i :| OccursAt(h, n, i);
      assert MatchesAt(hay, needle, i);
    }
    if exists i :: MatchesAt(hay, needle, i) {
      var i :| MatchesAt(hay, needle, i);
      assert OccursAt(h, n, i);
    }
  }

  predicate IsDigit(c: char) {
    '0' <= c <= '9'
  }

  predicate AllDigits(s: string) {
    forall i :: 0 <= i < |s| ==> IsDigit(s[i])
  }

  /** The value of a string of decimal digits, the empty string being 0. */
  function DecimalValue(s: string): nat
    requires AllDigits(s)
  {
    if s == [] then 0
    else DecimalValue(s[..|s| - 1]) * 10 + (s[|s| - 1] as int - '0' as int)
  }

  /** The shortest decimal numeral of `n`. */
  function Decimal(n: nat): (r: string)
    ensures r != [] && AllDigits(r)
  {
    var d := ['0' + (n % 10) as char];
    if n < 10 then d else Decimal(n / 10) + d
  }

  lemma {:induction false} DecimalRoundTrip(n: nat)
    ensures DecimalValue(Decimal(n)) == n
  {
    if n >= 10 {
      DecimalRoundTrip(n / 10);
      var s := Decimal(n);
      assert s[..|s| - 1] == Decimal(n / 10);
    }
  }

  /** JavaScript's `Number(v)` for a query value `v`: `None` stands both for
      an absent value (`Number(undefined)`) and for NaN. Strings of decimal
      digits, the empty one included, are converted; any other string is NaN. */
  function JsNumber(v: Option<string>): Option<int> {
    match v
    case None => None
    case Some(s) => if AllDigits(s) then Some(DecimalValue(s)) else None
  }

  /** `Number` gives back every non-negative integer from its decimal numeral. */
  lemma JsNumberOfDecimal(n: nat)
    ensures JsNumber(Some(Decimal(n))) == Some(n)
  {
    DecimalRoundTrip(n);
  }
}
