/**
 What the school codes are, character by character: the code of a domain, the
 normal form of a code, and the code given when one is taken
 (accounts/school_codes.py).
 */
module SchoolCodeShapes {
  import opened SchoolCodes

  /** How many characters of `s` are kept. */
  function KeptCount(keep: char -> bool, s: string): nat {
    if s == "" then 0 else KeptCount(keep, s[..|s| - 1]) + if keep(s[|s| - 1]) then 1 else 0
  }

  lemma {:induction false} KeptCountCons(keep: char -> bool, s: string)
    requires s != ""
    ensures KeptCount(keep, s) == (if keep(s[0]) then 1 else 0) + KeptCount(keep, s[1..])
  {
    if |s| > 1 {
      KeptCountCons(keep, s[..|s| - 1]);
      assert s[..|s| - 1][1..] == s[1..][..|s| - 2];
    } else {
      assert s[..0] == "";
    }
  }

  /** A filter keeps each kept character, in its order, and nothing else: the one
      at `i` comes after as many as are kept before it. */
  lemma {:induction false} FilteredAt(keep: char -> bool, s: string, i: nat)
    requires i < |s| && keep(s[i])
    ensures |Filter(keep, s)| == KeptCount(keep, s)
    ensures KeptCount(keep, s[..i]) < |Filter(keep, s)| && Filter(keep, s)[KeptCount(keep, s[..i])] == s[i]
  {
    FilteredLength(keep, s);
    if i > 0 {
      FilteredAt(keep, s[1..], i - 1);
      KeptCountCons(keep, s[..i]);
      assert s[..i][1..] == s[1..][..i - 1];
    }
  }

  lemma {:induction false} FilteredLength(keep: char -> bool, s: string)
    ensures |Filter(keep, s)| == KeptCount(keep, s)
  {
    if s != "" {
      FilteredLength(keep, s[1..]);
      KeptCountCons(keep, s);
    }
  }

  lemma {:induction false} KeptAll(keep: char -> bool, s: string)
    requires forall c <- s :: keep(c)
    ensures KeptCount(keep, s) == |s|
  {
    if s != "" {
      assert s[|s| - 1] in s;
      KeptAll(keep, s[..|s| - 1]);
    }
  }

  /** The text between the white space at its ends. */
  lemma {:induction false} StrippedLeft(s: string)
    ensures var t := StripLeft(s);
            |t| <= |s| && t == s[|s| - |t|..] && (forall i :: 0 <= i < |s| - |t| ==> IsSpace(s[i]))
            && (t != "" ==> !IsSpace(t[0]))
  {
    if s != "" && IsSpace(s[0]) {
      StrippedLeft(s[1..]);
      var t, cut := StripLeft(s), |s| - |StripLeft(s)|;
      assert s[cut..] == s[1..][cut - 1..];
      forall i | 0 <= i < cut ensures IsSpace(s[i]) {
        assert i > 0 ==> s[i] == s[1..][i - 1];
      }
    }
  }

  lemma {:induction false} StrippedRight(s: string)
    ensures var t := StripRight(s);
            t <= s && (forall i :: |t| <= i < |s| ==> IsSpace(s[i])) && (t != "" ==> !IsSpace(t[|t| - 1]))
  {
    if s != "" && IsSpace(s[|s| - 1]) {
      StrippedRight(s[..|s| - 1]);
    }
  }

  /** The text up to the first dot. */
  lemma {:induction false} LabelOf(s: string)
    ensures var t := FirstLabel(s); t <= s && '.' !in t && (|t| < |s| ==> s[|t|] == '.')
  {
    if s != "" && s[0] != '.' {
      LabelOf(s[1..]);
    }
  }

  lemma {:induction false} UpToDot(host: string, rest: string)
    requires '.' !in host
    ensures FirstLabel(host + "." + rest) == host
  {
    if host != "" {
      UpToDot(host[1..], rest);
      assert (host + "." + rest)[1..] == host[1..] + "." + rest;
    }
  }

  // ----- The code of a domain -----

  function UpperCased(c: char): char {
    if 'a' <= c <= 'z' then (c as int - 'a' as int + 'A' as int) as char else c
  }

  /** A character of a domain that its code keeps. */
  predicate Usable(c: char) {
    'a' <= c <= 'z' || 'A' <= c <= 'Z' || '0' <= c <= '9' || c == '-'
  }

  /** How many usable characters a text has. */
  function Usables(s: string): nat {
    KeptCount(c => Usable(c), s)
  }

  lemma {:induction false} UsablesOfUpper(s: string)
    ensures KeptCount(IsCodeChar, Upper(s)) == Usables(s)
  {
    if s != "" {
      UsablesOfUpper(s[..|s| - 1]);
      assert Upper(s)[..|s| - 1] == Upper(s[..|s| - 1]);
    }
  }

  /** The derived code is as long as the first label has usable characters, up
      to twenty; it is "SCHOOL" exactly when the label has none. */
  lemma DerivedLength(domain: string)
    ensures var host, code := FirstLabel(Strip(domain)), DeriveCode(domain);
            && (Usables(host) == 0 <==> forall c <- host :: !Usable(c))
            && if Usables(host) == 0 then code == "SCHOOL"
               else |code| == if Usables(host) < 20 then Usables(host) else 20
  {
    var host := FirstLabel(Strip(domain));
    UsablesOfUpper(host);
    FilteredLength(IsCodeChar, Upper(host));
    NoneUsable(host);
  }

  /** And its characters are those, upper-cased and in order. */
  lemma DerivedAt(domain: string, i: nat)
    requires i < |FirstLabel(Strip(domain))| && Usable(FirstLabel(Strip(domain))[i])
    requires Usables(FirstLabel(Strip(domain))[..i]) < 20
    ensures var host, code := FirstLabel(Strip(domain)), DeriveCode(domain);
            Usables(host[..i]) < |code| && code[Usables(host[..i])] == UpperCased(host[i])
  {
    var host := FirstLabel(Strip(domain));
    UsablesOfUpper(host[..i]);
    assert Upper(host)[..i] == Upper(host[..i]);
    FilteredAt(IsCodeChar, Upper(host), i);
  }

  lemma {:induction false} NoneUsable(s: string)
    ensures Usables(s) == 0 <==> forall c <- s :: !Usable(c)
  {
    if s != "" {
      NoneUsable(s[..|s| - 1]);
      assert s == s[..|s| - 1] + [s[|s| - 1]];
    }
  }

  /** In the plain case: a label of up to twenty usable characters is the code,
      upper-cased where it stands. */
  lemma DerivedFromLabel(host: string, rest: string)
    requires 0 < |host| <= 20 && forall c <- host :: Usable(c)
    ensures |DeriveCode(host + "." + rest)| == |host|
    ensures forall i :: 0 <= i < |host| ==> DeriveCode(host + "." + rest)[i] == UpperCased(host[i])
  {
    var domain := host + "." + rest;
    PlainLabel(host, rest);
    KeptAll(c => Usable(c), host);
    DerivedLength(domain);
    forall i | 0 <= i < |host| ensures DeriveCode(domain)[i] == UpperCased(host[i]) {
      assert host[i] in host && forall c <- host[..i] :: c in host;
      KeptAll(c => Usable(c), host[..i]);
      DerivedAt(domain, i);
    }
  }

  lemma PlainLabel(host: string, rest: string)
    requires host != "" && forall c <- host :: Usable(c)
    ensures FirstLabel(Strip(host + "." + rest)) == host
  {
    var domain := host + "." + rest;
    assert domain[0] == host[0] && host[0] in host;
    assert StripLeft(domain) == domain;
    StrippedRight(domain);
    var s := Strip(domain);
    assert domain[|host|] == '.';
    assert |s| > |host|;
    assert s == host + "." + s[|host| + 1..];
    UpToDot(host, s[|host| + 1..]);
  }

  // ----- The normal form -----

  /** Normalising drops the white space and upper-cases the rest where it is. */
  lemma NormalizedAt(s: string, i: nat)
    requires i < |s| && !IsSpace(s[i])
    ensures var k := KeptCount(c => !IsSpace(c), s[..i]);
            && |NormalizeCode(s)| == KeptCount(c => !IsSpace(c), s)
            && k < |NormalizeCode(s)| && NormalizeCode(s)[k] == UpperCased(s[i])
  {
    FilteredAt(c => !IsSpace(c), s, i);
  }

  /** A normalised code is usable exactly as the pattern says, with no newline to
      let through. */
  lemma NormalizedValidity(s: string)
    ensures IsValidCode(NormalizeCode(s)) <==>
              0 < |NormalizeCode(s)| <= 20
              && forall c <- NormalizeCode(s) :: 'A' <= c <= 'Z' || '0' <= c <= '9' || c == '-'
  {
    var code := NormalizeCode(s);
    var kept := Filter(c => !IsSpace(c), s);
    if code != "" {
      assert kept[|kept| - 1] in kept && code[|code| - 1] == UpperChar(kept[|kept| - 1]);
    }
  }

  // ----- The code given instead of a taken one -----

  function DigitValue(c: char): nat {
    if '0' <= c <= '9' then c as int - '0' as int else 0
  }

  /** The number a decimal numeral stands for. */
  function NumberOf(digits: string): nat {
    if digits == "" then 0 else NumberOf(digits[..|digits| - 1]) * 10 + DigitValue(digits[|digits| - 1])
  }

  lemma {:induction false} DecimalIsNumeral(n: nat)
    ensures NumberOf(Decimal(n)) == n
    ensures |Decimal(n)| > 1 ==> Decimal(n)[0] != '0'
  {
    var d := Decimal(n);
    if n >= 10 {
      DecimalIsNumeral(n / 10);
      assert d[..|d| - 1] == Decimal(n / 10);
      assert n >= 100 ==> |Decimal(n / 10)| > 1;
    } else {
      assert d[..0] == "";
    }
  }

  /** A base that is free is the code. One that is taken is cut where it must be
      and given the least number from 2 on that makes it free. */
  lemma DedupedShape(base: string, taken: set<string>)
    requires |base| <= 20 && |taken| < Pow10(18)
    ensures base !in taken ==> DedupeCode(base, taken) == base
    ensures base in taken ==>
              exists n: nat :: n >= 2 && DedupeCode(base, taken) == Numbered(base, n)
                && forall m :: 2 <= m < n ==> Numbered(base, m) in taken
  {
    if base in taken {
      var n := FirstFree(base, taken, 2);
      assert Pow10(19) == 10 * Pow10(18);
      DecimalLength(n, 19);
      NumberedIsCandidate(base, n);
      forall m | 2 <= m < n ensures Numbered(base, m) in taken {
        DecimalLength(m, 19);
        NumberedIsCandidate(base, m);
      }
    }
  }

  /** As much of the base as leaves room for "-n" in twenty characters, and that. */
  function Numbered(base: string, n: nat): string {
    var room := 19 - |Decimal(n)|;
    (if |base| <= room then base else if room < 0 then "" else base[..room]) + "-" + Decimal(n)
  }

  lemma NumberedIsCandidate(base: string, n: nat)
    requires |Decimal(n)| < 20
    ensures Numbered(base, n) == Candidate(base, n)
  {
  }
}
