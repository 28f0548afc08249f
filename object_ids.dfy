/**
  Store-assigned item identities and their text form.

  The store keys every item by an identity it assigns itself. Handlers hand that
  identity to clients as text (`str(...)` of the identity) and take it back as text
  on the path of the update, delete and quantity routes, where it is parsed back
  into an identity before the store is queried.

  Here an identity is a natural number, its text form is its lowercase hexadecimal
  numeral without leading zeros, and parsing accepts exactly those numerals.
 */
module ObjectIds {
  import opened Wrappers

  type Id = nat

  predicate IsHexDigit(c: char) {
    '0' <= c <= '9' || 'a' <= c <= 'f'
  }

  predicate AllHex(s: string) {
    forall i :: 0 <= i < |s| ==> IsHexDigit(s[i])
  }

  /** The value of one hexadecimal digit. */
  function DigitValue(c: char): (d: nat)
    requires IsHexDigit(c)
    ensures d < 16
  {
    if c <= '9' then c as int - '0' as int else c as int - 'a' as int + 10
  }

  /** The digit that stands for `d`; the inverse of DigitValue. */
  function HexDigit(d: nat): (c: char)
    requires d < 16
    ensures IsHexDigit(c) && DigitValue(c) == d
    ensures c == '0' <==> d == 0
  {
    if d < 10 then (d + '0' as int) as char else (d - 10 + 'a' as int) as char
  }

  /** The digit of value DigitValue(c) is `c` itself. */
  lemma DigitRoundTrip(c: char)
    requires IsHexDigit(c)
    ensures HexDigit(DigitValue(c)) == c
  {
  }

  /** The texts that name an identity: a non-empty hexadecimal numeral without leading zeros. */
  predicate IsIdText(s: string) {
    |s| >= 1 && AllHex(s) && (|s| == 1 || s[0] != '0')
  }

  /** The text form of an identity, as the handlers render it for clients. */
  function IdText(id: Id): (s: string)
    ensures IsIdText(s)
    ensures s[0] == '0' <==> id == 0
    decreases id
  {
    if id < 16 then [HexDigit(id)] else IdText(id / 16) + [HexDigit(id % 16)]
  }

  /** The number a hexadecimal numeral denotes, most significant digit first. */
  function HexValue(s: string): nat
    requires AllHex(s)
  {
    if |s| == 0 then 0 else 16 * HexValue(s[..|s| - 1]) + DigitValue(s[|s| - 1])
  }

  /** Parses the text form back into an identity; None for any text that names no identity. */
  function ParseId(s: string): Option<Id> {
    if IsIdText(s) then Some(HexValue(s)) else None
  }

  /** Reading back the rendered text gives the identity that was rendered. */
  lemma {:induction false} ValueOfText(id: Id)
    ensures HexValue(IdText(id)) == id
    decreases id
  {
    var s := IdText(id);
    if id >= 16 {
      ValueOfText(id / 16);
      assert s[..|s| - 1] == IdText(id / 16);
    }
  }

  /** A numeral's value is at least the value of its leading digit. */
  lemma {:induction false} LeadingDigitBound(s: string)
    requires |s| >= 1 && AllHex(s)
    ensures HexValue(s) >= DigitValue(s[0])
    decreases |s|
  {
    if |s| > 1 {
      var p := s[..|s| - 1];
      assert p[0] == s[0];
      LeadingDigitBound(p);
    }
  }

  /** Rendering the value of a canonical numeral gives that numeral back. */
  lemma {:induction false} TextOfValue(s: string)
    requires IsIdText(s)
    ensures IdText(HexValue(s)) == s
    decreases |s|
  {
    var c := s[|s| - 1];
    DigitRoundTrip(c);
    if |s| > 1 {
      var p := s[..|s| - 1];
      assert p[0] == s[0];
      LeadingDigitBound(p);
      DigitRoundTrip(p[0]);
      assert HexValue(p) >= 1;
      TextOfValue(p);
      assert s == p + [c];
    }
  }

  /** Parsing and rendering are inverse: a text parses to `id` exactly when it is the text of `id`. */
  lemma ParseIdInverse(s: string, id: Id)
    ensures ParseId(s) == Some(id) <==> IdText(id) == s
  {
    if ParseId(s) == Some(id) {
      TextOfValue(s);
    }
    if IdText(id) == s {
      ValueOfText(id);
    }
  }

  /** Every identity's text parses back to that identity. */
  lemma ParseIdText(id: Id)
    ensures ParseId(IdText(id)) == Some(id)
  {
    ParseIdInverse(IdText(id), id);
  }

  /** Distinct identities have distinct texts, so a rendered listing never merges two items. */
  lemma IdTextInjective(a: Id, b: Id)
    ensures IdText(a) == IdText(b) ==> a == b
  {
    ValueOfText(a);
    ValueOfText(b);
  }
}
