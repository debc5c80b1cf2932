/**
 School short codes (accounts/school_codes.py): normalising one, deriving one
 from an email domain, and keeping it apart from the codes already taken.

 Case and white space are ASCII's.
 */
module SchoolCodes {
  const CODE_MAX_LENGTH := 20
  const FALLBACK_CODE := "SCHOOL"

  predicate IsCodeChar(c: char) {
    'A' <= c <= 'Z' || '0' <= c <= '9' || c == '-'
  }

  predicate AllCodeChars(s: string) {
    forall c <- s :: IsCodeChar(c)
  }

  /** `^[A-Z0-9-]+$` as `re.match` reads it: `$` also matches before a final
      newline. */
  predicate MatchesPattern(s: string) {
    || (s != "" && AllCodeChars(s))
    || (|s| >= 2 && s[|s| - 1] == '\n' && AllCodeChars(s[..|s| - 1]))
  }

  predicate IsValidCode(s: string) {
    s != "" && |s| <= CODE_MAX_LENGTH && MatchesPattern(s)
  }

  predicate IsSpace(c: char) {
    c == ' ' || '\t' <= c <= '\r' || '\U{1C}' <= c <= '\U{1F}'
  }

  function UpperChar(c: char): char {
    if 'a' <= c <= 'z' then c - 'a' + 'A' else c
  }

  function Upper(s: string): string {
    seq(|s|, i requires 0 <= i < |s| => UpperChar(s[i]))
  }

  function Filter(keep: char -> bool, s: string): (r: string)
    ensures forall c <- r :: keep(c)
    ensures |r| <= |s|
  {
    if s == "" then ""
    else if keep(s[0]) then [s[0]] + Filter(keep, s[1..])
    else Filter(keep, s[1..])
  }

  function NormalizeCode(s: string): string {
    Upper(Filter(c => !IsSpace(c), s))
  }

  lemma {:induction false} FilterKeepsAll(keep: char -> bool, s: string)
    requires forall c <- s :: keep(c)
    ensures Filter(keep, s) == s
  {
    if s != "" {
      assert forall c <- s[1..] :: c in s;
      FilterKeepsAll(keep, s[1..]);
    }
  }

  /** A stored code is not changed by the normalising every save does. */
  lemma NormalizeIsIdempotent(s: string)
    ensures NormalizeCode(NormalizeCode(s)) == NormalizeCode(s)
  {
    var kept := Filter(c => !IsSpace(c), s);
    var once := NormalizeCode(s);
    forall c <- once ensures !IsSpace(c) && UpperChar(c) == c {
      var i :| 0 <= i < |once| && once[i] == c;
      assert kept[i] in kept && c == UpperChar(kept[i]);
    }
    FilterKeepsAll(c => !IsSpace(c), once);
  }

  function StripLeft(s: string): string {
    if s != "" && IsSpace(s[0]) then StripLeft(s[1..]) else s
  }

  function StripRight(s: string): string {
    if s != "" && IsSpace(s[|s| - 1]) then StripRight(s[..|s| - 1]) else s
  }

  function Strip(s: string): string {
    StripRight(StripLeft(s))
  }

  /** `s.split('.')[0]` */
  function FirstLabel(s: string): string {
    if s == "" || s[0] == '.' then "" else [s[0]] + FirstLabel(s[1..])
  }

  /** Python's `s[:n]`, which counts from the end when `n` is negative. */
  function Take(s: string, n: int): (r: string)
    ensures r <= s && (0 <= n ==> |r| <= n)
  {
    if n < 0 then s[..if |s| + n < 0 then 0 else |s| + n]
    else if n <= |s| then s[..n]
    else s
  }

  function DeriveCode(domain: string): string {
    var code := Take(Filter(IsCodeChar, Upper(FirstLabel(Strip(domain)))), CODE_MAX_LENGTH);
    if code == "" then FALLBACK_CODE else code
  }

  /** Whatever the domain, the derived code is one a school can have. */
  lemma DerivedCodeIsValid(domain: string)
    ensures AllCodeChars(DeriveCode(domain)) && IsValidCode(DeriveCode(domain))
  {
  }

  // ----- Decimal suffixes -----

  function Digit(d: nat): char
    requires d < 10
  {
    '0' + d as char
  }

  /** Python's `str(n)`. */
  function Decimal(n: nat): (r: string)
    ensures r != "" && forall c <- r :: '0' <= c <= '9'
  {
    if n < 10 then [Digit(n)] else Decimal(n / 10) + [Digit(n % 10)]
  }

  lemma {:induction false} DecimalIsInjective(m: nat, n: nat)
    requires Decimal(m) == Decimal(n)
    ensures m == n
  {
    var a, b := Decimal(m), Decimal(n);
    assert a[|a| - 1] == Digit(m % 10) && b[|b| - 1] == Digit(n % 10);
    if m >= 10 && n >= 10 {
      assert a[..|a| - 1] == Decimal(m / 10) && b[..|b| - 1] == Decimal(n / 10);
      DecimalIsInjective(m / 10, n / 10);
    }
  }

  function Pow10(k: nat): nat {
    if k == 0 then 1 else 10 * Pow10(k - 1)
  }

  lemma {:induction false} DecimalLength(n: nat, k: nat)
    requires k > 0 && n < Pow10(k)
    ensures |Decimal(n)| <= k
  {
    if n >= 10 {
      assert Pow10(1) == 10;
      DecimalLength(n / 10, k - 1);
    }
  }

  // ----- dedupe_code -----

  function Suffix(n: nat): string {
    "-" + Decimal(n)
  }

  function Candidate(base: string, n: nat): string {
    Take(base, CODE_MAX_LENGTH - |Suffix(n)|) + Suffix(n)
  }

  /** A candidate ends in "-" and the digits of its number. */
  lemma CandidateEnds(base: string, n: nat)
    ensures var s, digits := Candidate(base, n), Decimal(n);
            && |digits| < |s| && s[|s| - |digits|..] == digits && s[|s| - |digits| - 1] == '-'
            && (forall i :: |s| - |digits| <= i < |s| ==> '0' <= s[i] <= '9')
  {
  }

  /** Distinct numbers give distinct candidates even after trimming: what
      follows the last "-" is the number. */
  lemma CandidateIsInjective(base: string, m: nat, n: nat)
    requires Candidate(base, m) == Candidate(base, n)
    ensures m == n
  {
    CandidateEnds(base, m);
    CandidateEnds(base, n);
    assert |Decimal(m)| == |Decimal(n)|;
    DecimalIsInjective(m, n);
  }

  /** The candidates numbered from 2 up to, not including, `n`. */
  function Candidates(base: string, n: nat): set<string> {
    if n <= 2 then {} else Candidates(base, n - 1) + {Candidate(base, n - 1)}
  }

  lemma {:induction false} CandidatesCount(base: string, n: nat)
    requires n >= 2
    ensures |Candidates(base, n)| == n - 2
    ensures forall c <- Candidates(base, n) :: exists m :: 2 <= m < n && c == Candidate(base, m)
  {
    if n > 2 {
      CandidatesCount(base, n - 1);
      var last := Candidate(base, n - 1);
      if last in Candidates(base, n - 1) {
        var m :| 2 <= m < n - 1 && last == Candidate(base, m);
        CandidateIsInjective(base, m, n - 1);
      }
    }
  }

  /** So at most |taken| candidates can be taken, and the search ends. */
  lemma CollisionsBounded(base: string, taken: set<string>, n: nat)
    requires n >= 2 && forall m :: 2 <= m < n ==> Candidate(base, m) in taken
    ensures n - 2 <= |taken|
  {
    CandidatesCount(base, n);
    SubsetSize(Candidates(base, n), taken);
  }

  lemma {:induction false} SubsetSize<T>(a: set<T>, b: set<T>)
    requires a <= b
    ensures |a| <= |b|
  {
    if a != {} {
      var x :| x in a;
      SubsetSize(a - {x}, b - {x});
    }
  }

  /** The number of the first candidate not taken, from `n` on. */
  function FirstFree(base: string, taken: set<string>, n: nat): (k: nat)
    requires n >= 2 && forall m :: 2 <= m < n ==> Candidate(base, m) in taken
    ensures n <= k <= |taken| + 2
    ensures Candidate(base, k) !in taken
    ensures forall m :: 2 <= m < k ==> Candidate(base, m) in taken
    decreases |taken| + 2 - n
  {
    CollisionsBounded(base, taken, n);
    if Candidate(base, n) !in taken then n
    else
      CollisionsBounded(base, taken, n + 1);
      FirstFree(base, taken, n + 1)
  }

  function DedupeCode(base: string, taken: set<string>): (code: string)
    ensures code !in taken
  {
    if base !in taken then base else Candidate(base, FirstFree(base, taken, 2))
  }

  /** dedupe_code, as the source loops. */
  method Dedupe(base: string, taken: set<string>) returns (code: string)
    ensures code == DedupeCode(base, taken)
  {
    if base !in taken {
      return base;
    }
    var n := 2;
    CollisionsBounded(base, taken, n);
    while true
      invariant n >= 2 && forall m :: 2 <= m < n ==> Candidate(base, m) in taken
      invariant n - 2 <= |taken|
      invariant FirstFree(base, taken, 2) == FirstFree(base, taken, n)
      decreases |taken| + 2 - n
    {
      var suffix := "-" + Decimal(n);
      code := Take(base, CODE_MAX_LENGTH - |suffix|) + suffix;
      if code !in taken {
        return;
      }
      CollisionsBounded(base, taken, n + 1);
      n := n + 1;
    }
  }

  /** The number in the suffix, when there is one. */
  function SuffixNumber(base: string, taken: set<string>): (n: nat)
    ensures base in taken ==> n == FirstFree(base, taken, 2)
    ensures n <= |taken| + 2
  {
    if base in taken then FirstFree(base, taken, 2) else 0
  }

  lemma DedupedCodeFits(base: string, taken: set<string>)
    requires |base| <= CODE_MAX_LENGTH && |taken| < Pow10(18)
    ensures |DedupeCode(base, taken)| <= CODE_MAX_LENGTH
    ensures |Suffix(SuffixNumber(base, taken))| <= CODE_MAX_LENGTH
  {
    assert Pow10(19) == 10 * Pow10(18);
    DecimalLength(SuffixNumber(base, taken), 19);
  }

  /** What every caller of dedupe_code asks for: the code of a domain, kept apart
      from those taken, is valid. */
  lemma DedupedDomainIsValid(domain: string, taken: set<string>)
    requires |taken| < Pow10(18)
    ensures IsValidCode(DedupeCode(DeriveCode(domain), taken)) && AllCodeChars(DedupeCode(DeriveCode(domain), taken))
    ensures DedupeCode(DeriveCode(domain), taken) !in taken
  {
    var base := DeriveCode(domain);
    DerivedCodeIsValid(domain);
    DedupedCodeFits(base, taken);
    if base in taken {
      var suffix := Suffix(SuffixNumber(base, taken));
      assert base[|base| - 1] in base;
      KeptCodeChars(base, Take(base, CODE_MAX_LENGTH - |suffix|), suffix);
    }
  }

  /** For any base at all, with fewer than 10^18 codes taken: a valid base gives a valid code, but
      for the base the pattern's `$` lets through: one that ends in a newline
      and is short enough for the suffix to follow it. */
  lemma DedupedCodeIsValid(base: string, taken: set<string>)
    requires IsValidCode(base) && |taken| < Pow10(18)
    ensures IsValidCode(DedupeCode(base, taken)) <==>
              !(base in taken && base[|base| - 1] == '\n' && |base| + |Suffix(SuffixNumber(base, taken))| <= CODE_MAX_LENGTH)
  {
    DedupedCodeFits(base, taken);
    if base in taken {
      var suffix := Suffix(SuffixNumber(base, taken));
      var kept := Take(base, CODE_MAX_LENGTH - |suffix|);
      var code := DedupeCode(base, taken);
      assert code == kept + suffix && AllCodeChars(suffix);
      if base[|base| - 1] == '\n' && |base| + |suffix| <= CODE_MAX_LENGTH {
        assert code[|base| - 1] == '\n' && code[|base| - 1] in code[..|code| - 1];
        assert code[|base| - 1] in code;
      } else {
        KeptCodeChars(base, kept, suffix);
      }
    }
  }

  /** Part of a valid base, short of a final newline, and a suffix. */
  lemma KeptCodeChars(base: string, kept: string, suffix: string)
    requires MatchesPattern(base) && kept <= base && (base[|base| - 1] == '\n' ==> |kept| < |base|)
    requires suffix != "" && AllCodeChars(suffix)
    ensures AllCodeChars(kept + suffix)
  {
    forall c <- kept + suffix ensures IsCodeChar(c) {
      if c !in suffix {
        var i :| 0 <= i < |kept| && kept[i] == c;
        assert base[i] == c && (base[|base| - 1] == '\n' ==> base[..|base| - 1][i] == c);
      }
    }
  }
}
