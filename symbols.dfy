/** Ticker text handling: the symbol normaliser that every query endpoint
    applies (main.py) and the base-name fallback of the loader (seed.py). */
module Symbols {

  predicate IsLower(c: char) { 'a' <= c <= 'z' }

  /** `str.upper` restricted to ASCII letters. */
  function UpperChar(c: char): (u: char)
    ensures !IsLower(u)
    ensures IsLower(c) ==> u as int == c as int - 32
    ensures !IsLower(c) ==> u == c
  {
    if IsLower(c) then (c as int - 32) as char else c
  }

  function Upper(s: string): (u: string)
    ensures |u| == |s|
    ensures forall i :: 0 <= i < |u| ==> !IsLower(u[i])
    ensures forall i :: 0 <= i < |s| && !IsLower(s[i]) ==> u[i] == s[i]
    ensures forall i :: 0 <= i < |s| && IsLower(s[i]) ==> u[i] as int == s[i] as int - 32
  {
    seq(|s|, i requires 0 <= i < |s| => UpperChar(s[i]))
  }

  predicate EndsWith(s: string, suffix: string) {
    |suffix| <= |s| && s[|s| - |suffix|..] == suffix
  }

  /** The two exchange suffixes the API recognises. */
  predicate HasMarketSuffix(s: string) {
    EndsWith(s, ".NS") || EndsWith(s, ".BO")
  }

  /** Uppercase the input and append ".NS" unless it already ends in ".NS"
      or ".BO". */
  function Normalize(symbol: string): (r: string)
    ensures HasMarketSuffix(r)
    ensures Upper(symbol) <= r
  {
    var upper := Upper(symbol);
    if HasMarketSuffix(upper) then upper else upper + ".NS"
  }

  lemma {:induction false} UpperIdempotent(s: string)
    ensures Upper(Upper(s)) == Upper(s)
  {
    var u := Upper(s);
    forall i | 0 <= i < |u| ensures Upper(u)[i] == u[i] {
      assert !IsLower(u[i]);
    }
  }

  lemma {:induction false} UpperAppend(a: string, b: string)
    ensures Upper(a + b) == Upper(a) + Upper(b)
  {
    forall i | 0 <= i < |a + b| ensures Upper(a + b)[i] == (Upper(a) + Upper(b))[i] {
      if i < |a| {
        assert (a + b)[i] == a[i];
      } else {
        assert (a + b)[i] == b[i - |a|];
      }
    }
  }

  /** The normalised form is the uppercased input, unchanged when it already
      carries a market suffix and with exactly ".NS" appended otherwise (so
      "X.BSE" becomes "X.BSE.NS"). */
  lemma NormalizeKeepsOrAppends(symbol: string)
    ensures HasMarketSuffix(Upper(symbol)) <==> Normalize(symbol) == Upper(symbol)
    ensures !HasMarketSuffix(Upper(symbol)) <==> Normalize(symbol) == Upper(symbol) + ".NS"
  {
    var u := Upper(symbol);
    if !HasMarketSuffix(u) {
      assert |Normalize(symbol)| == |u| + 3;
    }
  }

  /** The result depends on the input only through its uppercased form. */
  lemma {:induction false} NormalizeCaseInsensitive(a: string, b: string)
    requires Upper(a) == Upper(b)
    ensures Normalize(a) == Normalize(b)
    ensures Normalize(Upper(a)) == Normalize(a)
  {
    UpperIdempotent(a);
  }

  lemma {:induction false} NormalizeIdempotent(symbol: string)
    ensures Normalize(Normalize(symbol)) == Normalize(symbol)
  {
    var u := Upper(symbol);
    UpperIdempotent(symbol);
    if !HasMarketSuffix(u) {
      UpperAppend(u, ".NS");
      assert Upper(".NS") == ".NS";
      assert Upper(u + ".NS") == u + ".NS";
    }
  }

  lemma NormalizeExampleTcs()
    ensures Normalize("tcs") == "TCS.NS"
    ensures Normalize("TCS") == "TCS.NS"
  {
    var u := Upper("tcs");
    assert u[0] == 'T' && u[1] == 'C' && u[2] == 'S';
    assert u == "TCS";
    assert Upper("TCS") == "TCS";
  }

  lemma NormalizeExampleTcsNs()
    ensures Normalize("tcs.ns") == "TCS.NS"
  {
    var u := Upper("tcs.ns");
    assert u[0] == 'T' && u[1] == 'C' && u[2] == 'S' && u[3] == '.' && u[4] == 'N' && u[5] == 'S';
    assert u == "TCS.NS";
  }

  lemma NormalizeExampleBo()
    ensures Normalize("x.bo") == "X.BO"
  {
    var u := Upper("x.bo");
    assert u[0] == 'X' && u[1] == '.' && u[2] == 'B' && u[3] == 'O';
    assert u == "X.BO";
  }

  lemma NormalizeExampleOtherSuffix()
    ensures Normalize("x.bse") == "X.BSE.NS"
  {
    var u := Upper("x.bse");
    assert u[0] == 'X' && u[1] == '.' && u[2] == 'B' && u[3] == 'S' && u[4] == 'E';
    assert u == "X.BSE";
  }

  /** No lowercase letter at index i or later. */
  predicate NoLowerFrom(s: string, i: nat)
    decreases |s| - i
  {
    i >= |s| || (!IsLower(s[i]) && NoLowerFrom(s, i + 1))
  }

  lemma {:induction false} NoLowerFromMeans(s: string, i: nat)
    requires NoLowerFrom(s, i)
    ensures forall j :: i <= j < |s| ==> !IsLower(s[j])
    decreases |s| - i
  {
    if i < |s| {
      NoLowerFromMeans(s, i + 1);
    }
  }

  /** A symbol with no lowercase letter and a market suffix is its own
      normal form. */
  predicate IsNormal(t: string) {
    NoLowerFrom(t, 0) && HasMarketSuffix(t)
  }

  lemma NormalFormFixed(t: string)
    requires IsNormal(t)
    ensures Normalize(t) == t
  {
    NoLowerFromMeans(t, 0);
    assert Upper(t) == t;
  }

  /** `ticker.split('.')[0]`: the text before the first '.', or the whole
      ticker when it has none. */
  function BaseName(ticker: string): (r: string)
    ensures r <= ticker
    ensures '.' !in r
    ensures |r| == |ticker| || ticker[|r|] == '.'
  {
    if ticker == [] || ticker[0] == '.' then [] else [ticker[0]] + BaseName(ticker[1..])
  }

  /** The base name of a ticker is the text before its first '.'. */
  lemma {:induction false} BaseNameBeforeDot(stem: string, rest: string)
    requires '.' !in stem
    ensures BaseName(stem + "." + rest) == stem
  {
    if stem != [] {
      assert (stem + "." + rest)[0] == stem[0];
      assert (stem + "." + rest)[1..] == stem[1..] + "." + rest;
      BaseNameBeforeDot(stem[1..], rest);
    }
  }

  lemma BaseNameExample()
    ensures BaseName("RELIANCE.NS") == "RELIANCE"
  {
    assert "RELIANCE.NS" == "RELIANCE" + "." + "NS";
    BaseNameBeforeDot("RELIANCE", "NS");
  }
}
