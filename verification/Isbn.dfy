/**
 ISBN arithmetic (catalog/services/isbn.py), by the construction and check-digit
 rules of clause 4 of ISO 2108.

 Strings are ASCII: no other character upper-cases to a digit or to 'X', so a
 string with one is refused either way.
 */
module Isbn {
  import opened Common

  // ----- Cleaning -----

  predicate IsDigit(c: char) {
    '0' <= c <= '9'
  }

  predicate AllDigits(s: string) {
    forall i :: 0 <= i < |s| ==> IsDigit(s[i])
  }

  /** `[0-9]{13}|[0-9]{9}[0-9X]` */
  predicate Shape(s: string) {
    (|s| == 13 && AllDigits(s)) || (|s| == 10 && AllDigits(s[..9]) && (IsDigit(s[9]) || s[9] == 'X'))
  }

  function Upper(c: char): char {
    if 'a' <= c <= 'z' then c - 'a' + 'A' else c
  }

  /** `replace('-', '').replace(' ', '').upper()` */
  function Stripped(s: string): string {
    if s == "" then ""
    else if s[0] == '-' || s[0] == ' ' then Stripped(s[1..])
    else [Upper(s[0])] + Stripped(s[1..])
  }

  function CleanAndValidate(s: string): Option<string> {
    var raw := Stripped(s);
    if Shape(raw) then Some(raw) else None
  }

  // ----- Check digits -----

  function Value(c: char): int {
    if c == 'X' then 10 else c as int - '0' as int
  }

  function Digit(n: int): char
    requires 0 <= n <= 10
  {
    if n == 10 then 'X' else '0' + n as char
  }

  function Weight(ten: bool, i: nat): int {
    if ten then 10 - i else if i % 2 == 0 then 1 else 3
  }

  function Total(ten: bool, s: string): int {
    if s == "" then 0
    else Total(ten, s[..|s| - 1]) + Value(s[|s| - 1]) * Weight(ten, |s| - 1)
  }

  function CheckThirteen(core: string): int {
    (10 - Total(false, core) % 10) % 10
  }

  function CheckTen(core: string): int {
    (11 - Total(true, core) % 11) % 11
  }

  /** catalog/services/isbn.py, isbn_checksum_ok, on a cleaned ISBN. */
  predicate ChecksumOk(isbn: string)
    requires Shape(isbn)
  {
    if |isbn| == 13 then CheckThirteen(isbn[..12]) == Value(isbn[12])
    else (Total(true, isbn[..9]) + Value(isbn[9])) % 11 == 0
  }

  /** catalog/services/isbn.py, validate_book_isbn. */
  function ValidateBook(s: string): Option<string> {
    var isbn := CleanAndValidate(s);
    if isbn.None? || !ChecksumOk(isbn.value) then None
    else if |isbn.value| == 13 && isbn.value[..3] !in {"978", "979"} then None
    else isbn
  }

  /** catalog/services/isbn.py, isbn_forms. */
  function Forms(isbn: string): set<string>
    requires Shape(isbn)
  {
    if |isbn| == 13 then
      if isbn[..3] == "978" then {isbn, ToTen(isbn)} else {isbn}
    else {isbn, ToThirteen(isbn)}
  }

  function ToTen(isbn: string): string
    requires |isbn| == 13
  {
    isbn[3..12] + [Digit(CheckTen(isbn[3..12]))]
  }

  function ToThirteen(isbn: string): string
    requires |isbn| == 10
  {
    "978" + isbn[..9] + [Digit(CheckThirteen("978" + isbn[..9]))]
  }

  // ----- The rule of the standard -----

  /** ISO 2108: the weighted sum of all the digits is a multiple of the modulus. */
  predicate Conforms(isbn: string)
    requires Shape(isbn)
  {
    if |isbn| == 13 then Total(false, isbn) % 10 == 0 else Total(true, isbn) % 11 == 0
  }

  lemma ChecksumIsRule(isbn: string)
    requires Shape(isbn)
    ensures ChecksumOk(isbn) <==> Conforms(isbn)
  {
  }

  /** What putting `c` at `i` adds to the total. */
  function Change(ten: bool, s: string, i: nat, c: char): int
    requires i < |s|
  {
    (Value(c) - Value(s[i])) * Weight(ten, i)
  }

  lemma {:induction false} TotalOfChange(ten: bool, s: string, i: nat, c: char)
    requires i < |s|
    ensures Total(ten, s[i := c]) == Total(ten, s) + Change(ten, s, i, c)
  {
    var n := |s| - 1;
    if i < n {
      TotalOfChange(ten, s[..n], i, c);
      assert s[i := c][..n] == s[..n][i := c];
    } else {
      assert s[i := c][..n] == s[..n];
      assert (Value(c) - Value(s[n])) * Weight(ten, n) == Value(c) * Weight(ten, n) - Value(s[n]) * Weight(ten, n);
    }
  }

  function Swapped(s: string, i: nat, j: nat): string
    requires i < |s| && j < |s|
  {
    s[i := s[j]][j := s[i]]
  }

  lemma TotalOfSwap(ten: bool, s: string, i: nat, j: nat)
    requires i < j < |s|
    ensures Total(ten, Swapped(s, i, j)) ==
              Total(ten, s) + (Value(s[j]) - Value(s[i])) * (Weight(ten, i) - Weight(ten, j))
  {
    var mid := s[i := s[j]];
    TotalOfTwo(ten, s, mid, Swapped(s, i, j), i, j);
    ChangesOfSwap(ten, s, i, j);
  }

  lemma TotalOfTwo(ten: bool, s: string, mid: string, end: string, i: nat, j: nat)
    requires i < j < |s| && mid == s[i := s[j]] && end == mid[j := s[i]]
    ensures Total(ten, end) == Total(ten, s) + Change(ten, s, i, s[j]) + Change(ten, mid, j, s[i])
  {
    TotalOfChange(ten, s, i, s[j]);
    TotalOfChange(ten, mid, j, s[i]);
  }

  lemma ChangesOfSwap(ten: bool, s: string, i: nat, j: nat)
    requires i < j < |s|
    ensures Change(ten, s, i, s[j]) + Change(ten, s[i := s[j]], j, s[i]) ==
              (Value(s[j]) - Value(s[i])) * (Weight(ten, i) - Weight(ten, j))
  {
  }

  /** 11 is prime: no product of two nonzero differences below it is a multiple. */
  lemma NoMultipleOfEleven(d: int, w: int)
    requires -10 <= d <= 10 && -10 <= w <= 10 && d != 0 && w != 0
    ensures d * w % 11 != 0
  {
    if w < -5 {
      FirstFive(d, w + 11);
      assert d * w == d * (w + 11) - 11 * d;
      ElevenAway(d * (w + 11), d);
    } else if w < 0 {
      FirstFive(d, -w);
      assert d * w == -(d * -w);
      ElevenAway(d * -w, 0);
    } else if w <= 5 {
      FirstFive(d, w);
    } else {
      FirstFive(d, 11 - w);
      assert d * w == -(d * (11 - w) - 11 * d);
      ElevenAway(d * (11 - w), d);
    }
  }

  lemma ElevenAway(x: int, k: int)
    ensures x % 11 != 0 ==> (x - 11 * k) % 11 != 0 && -(x - 11 * k) % 11 != 0
  {
  }

  lemma FirstFive(d: int, v: int)
    requires -10 <= d <= 10 && d != 0 && 1 <= v <= 5
    ensures d * v % 11 != 0
  {
  }

  lemma NoMultipleOfTen(d: int)
    requires -9 <= d <= 9 && d != 0
    ensures d % 10 != 0 && 3 * d % 10 != 0
  {
  }

  lemma SumsOff(total: int, change: int, modulus: int)
    requires modulus in {10, 11} && total % modulus == 0
    ensures (total + change) % modulus == 0 <==> change % modulus == 0
  {
  }

  lemma ValuesInRange(isbn: string, i: nat)
    requires Shape(isbn) && i < |isbn|
    ensures 0 <= Value(isbn[i]) <= 10 && (|isbn| == 13 || i < 9 ==> Value(isbn[i]) <= 9)
  {
  }

  lemma ValueIsInjective(isbn: string, other: string, i: nat, j: nat)
    requires Shape(isbn) && Shape(other) && i < |isbn| && j < |other|
    ensures Value(isbn[i]) == Value(other[j]) <==> isbn[i] == other[j]
  {
  }

  /** A valid ISBN misread in one place is refused. */
  lemma SingleChangeRejected(isbn: string, i: nat, c: char)
    requires Shape(isbn) && ChecksumOk(isbn) && i < |isbn| && c != isbn[i]
    ensures Shape(isbn[i := c]) ==> !ChecksumOk(isbn[i := c])
  {
    var misread := isbn[i := c];
    if Shape(misread) {
      ChecksumIsRule(isbn);
      ChecksumIsRule(misread);
      ValuesInRange(isbn, i);
      ValuesInRange(misread, i);
      ValueIsInjective(isbn, misread, i, i);
      TotalOfChange(|isbn| == 10, isbn, i, c);
      var d := Value(c) - Value(isbn[i]);
      if |isbn| == 10 {
        NoMultipleOfEleven(d, 10 - i);
        SumsOff(Total(true, isbn), d * Weight(true, i), 11);
      } else {
        NoMultipleOfTen(d);
        assert d * Weight(false, i) in {d, 3 * d};
        SumsOff(Total(false, isbn), d * Weight(false, i), 10);
      }
    }
  }

  /** In an ISBN-10, two different digits swapped anywhere are noticed. */
  lemma SwapInTenRejected(isbn: string, i: nat, j: nat)
    requires Shape(isbn) && |isbn| == 10 && ChecksumOk(isbn) && i < j < 10 && isbn[i] != isbn[j]
    ensures Shape(Swapped(isbn, i, j)) ==> !ChecksumOk(Swapped(isbn, i, j))
  {
    if Shape(Swapped(isbn, i, j)) {
      ChecksumIsRule(isbn);
      ChecksumIsRule(Swapped(isbn, i, j));
      ValuesInRange(isbn, i);
      ValuesInRange(isbn, j);
      ValueIsInjective(isbn, isbn, i, j);
      TotalOfSwap(true, isbn, i, j);
      NoMultipleOfEleven(Value(isbn[j]) - Value(isbn[i]), j - i);
      SumsOff(Total(true, isbn), (Value(isbn[j]) - Value(isbn[i])) * (j - i), 11);
    }
  }

  /** In an ISBN-13, neighbours swapped go unnoticed exactly when they are equal
      or five apart. */
  lemma SwapInThirteen(isbn: string, i: nat)
    requires Shape(isbn) && |isbn| == 13 && ChecksumOk(isbn) && i < 12
    ensures Shape(Swapped(isbn, i, i + 1))
    ensures ChecksumOk(Swapped(isbn, i, i + 1)) <==>
              Value(isbn[i]) - Value(isbn[i + 1]) in {-5, 0, 5}
  {
    ChecksumIsRule(isbn);
    ChecksumIsRule(Swapped(isbn, i, i + 1));
    ValuesInRange(isbn, i);
    ValuesInRange(isbn, i + 1);
    TotalOfSwap(false, isbn, i, i + 1);
    var d := Value(isbn[i + 1]) - Value(isbn[i]);
    var w := Weight(false, i) - Weight(false, i + 1);
    assert w in {2, -2};
    SumsOff(Total(false, isbn), d * w, 10);
    FiveApart(d, w);
  }

  lemma FiveApart(d: int, w: int)
    requires -9 <= d <= 9 && w in {-2, 2}
    ensures d * w % 10 == 0 <==> d in {-5, 0, 5}
  {
  }

  // ----- The two forms of one book -----

  predicate HasTwoForms(isbn: string) {
    Shape(isbn) && (|isbn| == 10 || isbn[..3] == "978")
  }

  lemma ToTenIsValid(isbn: string)
    requires |isbn| == 13 && AllDigits(isbn)
    ensures Shape(ToTen(isbn)) && ChecksumOk(ToTen(isbn)) && ToTen(isbn)[..9] == isbn[3..12]
  {
  }

  lemma ToThirteenIsValid(isbn: string)
    requires Shape(isbn) && |isbn| == 10
    ensures Shape(ToThirteen(isbn)) && ChecksumOk(ToThirteen(isbn))
    ensures HasTwoForms(ToThirteen(isbn)) && ToThirteen(isbn)[3..12] == isbn[..9]
  {
  }

  /** The check digit is the only one that makes an ISBN valid. */
  lemma ValidIsRebuilt(isbn: string)
    requires HasTwoForms(isbn)
    ensures ChecksumOk(isbn) <==> isbn == if |isbn| == 10 then ToTen(ToThirteen(isbn)) else ToThirteen(ToTen(isbn))
  {
    if |isbn| == 10 {
      ToThirteenIsValid(isbn);
      ToTenIsValid(ToThirteen(isbn));
      var back := ToTen(ToThirteen(isbn));
      assert isbn == isbn[..9] + [isbn[9]] && back == back[..9] + [back[9]];
      ValuesInRange(isbn, 9);
      ValuesInRange(back, 9);
      ValueIsInjective(isbn, back, 9, 9);
    } else {
      ToTenIsValid(isbn);
      ToThirteenIsValid(ToTen(isbn));
      var back := ToThirteen(ToTen(isbn));
      assert isbn[..12] == isbn[..3] + isbn[3..12];
      assert back[..12] == back[..3] + back[3..12];
      assert isbn == isbn[..12] + [isbn[12]] && back == back[..12] + [back[12]];
      ValueIsInjective(isbn, back, 12, 12);
    }
  }

  /** Two ISBNs name one book: both forms have two members of different length,
      and are the same set from either exactly when the ISBN is valid. */
  lemma FormsOfOneBook(isbn: string)
    requires HasTwoForms(isbn)
    ensures var other := if |isbn| == 10 then ToThirteen(isbn) else ToTen(isbn);
            && HasTwoForms(other) && ChecksumOk(other) && |other| + |isbn| == 23
            && Forms(isbn) == {isbn, other} && |Forms(isbn)| == 2
            && (ChecksumOk(isbn) <==> Forms(other) == Forms(isbn))
  {
    ValidIsRebuilt(isbn);
    var other := if |isbn| == 10 then ToThirteen(isbn) else ToTen(isbn);
    var back := if |isbn| == 10 then ToTen(other) else ToThirteen(other);
    if |isbn| == 10 { ToThirteenIsValid(isbn); } else { ToTenIsValid(isbn); }
    assert isbn != other && Forms(isbn) == {isbn, other};
    assert Forms(isbn) - {isbn} == {other};
    assert Forms(other) == {other, back};
    assert back != other && (back in Forms(isbn) <==> back == isbn);
  }

  /** So two valid ISBNs share a form exactly when their forms are the same: a
      book is found under any of its numbers and under no other's. */
  lemma SharedFormIsSameBook(isbn: string, other: string)
    requires Shape(isbn) && Shape(other) && ChecksumOk(isbn) && ChecksumOk(other)
    ensures (exists form :: form in Forms(isbn) && form in Forms(other)) <==> Forms(isbn) == Forms(other)
  {
    assert isbn in Forms(isbn) && other in Forms(other);
    if form :| form in Forms(isbn) && form in Forms(other) {
      FormOfItsForm(isbn, form);
      FormOfItsForm(other, form);
    }
  }

  lemma FormOfItsForm(isbn: string, form: string)
    requires Shape(isbn) && ChecksumOk(isbn) && form in Forms(isbn)
    ensures Shape(form) && Forms(form) == Forms(isbn)
  {
    if HasTwoForms(isbn) {
      FormsOfOneBook(isbn);
    }
  }

  /** What is stored is clean, valid and, once stored, stays as it is. */
  lemma StoredIsFixpoint(s: string)
    ensures ValidateBook(s).Some? ==>
              && Shape(ValidateBook(s).value) && ChecksumOk(ValidateBook(s).value)
              && ValidateBook(ValidateBook(s).value) == ValidateBook(s)
  {
    if ValidateBook(s).Some? {
      var isbn := ValidateBook(s).value;
      if |isbn| == 10 {
        assert forall i :: 0 <= i < 9 ==> isbn[..9][i] == isbn[i];
      }
      CleanIsKept(isbn);
    }
  }

  lemma {:induction false} CleanIsKept(s: string)
    requires forall c <- s :: IsDigit(c) || c == 'X'
    ensures Stripped(s) == s
  {
    if s != "" {
      assert s[0] in s && s == [s[0]] + s[1..];
      CleanIsKept(s[1..]);
    }
  }

  // ----- What is cleaned, and what is stored -----

  /** How many characters of `s` are not hyphens or spaces. */
  function Inked(s: string): nat {
    if s == "" then 0 else (if s[0] in {'-', ' '} then 0 else 1) + Inked(s[1..])
  }

  /** Cleaning drops hyphens and spaces and capitalises the rest in its order. */
  lemma {:induction false} CleanedAt(s: string, i: nat)
    requires i < |s| && s[i] !in {'-', ' '}
    ensures |Stripped(s)| == Inked(s) && Inked(s[..i]) < |Stripped(s)|
    ensures Stripped(s)[Inked(s[..i])] == if 'a' <= s[i] <= 'z' then (s[i] as int - 32) as char else s[i]
  {
    CleanedLength(s);
    if i > 0 {
      CleanedAt(s[1..], i - 1);
      assert s[..i][0] == s[0] && s[..i][1..] == s[1..][..i - 1];
    }
  }

  lemma {:induction false} CleanedLength(s: string)
    ensures |Stripped(s)| == Inked(s)
  {
    if s != "" {
      CleanedLength(s[1..]);
    }
  }

  /** What may be stored for a book: thirteen digits from 978 or 979, or ten with
      perhaps an X at the end, whose weighted sum is a multiple of the modulus. */
  predicate BookNumber(isbn: string) {
    && Shape(isbn) && Conforms(isbn)
    && (|isbn| == 13 ==> isbn[0] == '9' && isbn[1] == '7' && isbn[2] in {'8', '9'})
  }

  /** Exactly such a number is stored, cleaned, and anything else is refused. */
  lemma StoredExactly(s: string)
    ensures ValidateBook(s) == if BookNumber(Stripped(s)) then Some(Stripped(s)) else None
  {
    var isbn := Stripped(s);
    if Shape(isbn) {
      ChecksumIsRule(isbn);
      assert |isbn| == 13 ==> isbn[..3] == [isbn[0], isbn[1], isbn[2]];
      assert |isbn| == 13 ==> (isbn[..3] in {"978", "979"} <==> isbn[0] == '9' && isbn[1] == '7' && isbn[2] in {'8', '9'});
    }
  }
}
