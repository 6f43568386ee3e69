/**
 * The key codec of the shortener: a sequence id is rendered with
 * `id.toString(36)` (server.js `idToUrl`) and a key is read back with
 * `parseInt(key, 36)` (server.js `keyToId` and the redirect route).
 * Ids are unbounded naturals; the decoder is strict (every character must
 * be a base-36 digit, either case), and `None` stands for `NaN`.
 */
module Base36 {
  import opened Wrappers

  const RADIX: nat := 36

  /** A character `toString(36)` may emit: `0-9` or lower-case `a-z`. */
  predicate IsLowerDigit(c: char)
  {
    '0' <= c <= '9' || 'a' <= c <= 'z'
  }

  /** The value of one base-36 digit; letters are accepted in either case, as `parseInt` does. */
  function DigitValue(c: char): (r: Option<nat>)
    ensures r.Some? ==> r.value < RADIX
    ensures r.Some? <==> IsLowerDigit(c) || 'A' <= c <= 'Z'
    ensures IsLowerDigit(c) ==> r.Some? && DigitChar(r.value) == c
  {
    if '0' <= c <= '9' then Some(c as nat - '0' as nat)
    else if 'a' <= c <= 'z' then Some(c as nat - 'a' as nat + 10)
    else if 'A' <= c <= 'Z' then Some(c as nat - 'A' as nat + 10)
    else None
  }

  /** The lower-case digit for `d`. */
  function DigitChar(d: nat): (c: char)
    requires d < RADIX
  {
    if d < 10 then ('0' as nat + d) as char else ('a' as nat + d - 10) as char
  }

  lemma DigitCharValue(d: nat)
    requires d < RADIX
    ensures IsLowerDigit(DigitChar(d)) && DigitValue(DigitChar(d)) == Some(d)
  {
  }

  /** `n.toString(36)`: most significant digit first, no padding, no sign. */
  function Encode(n: nat): (s: string)
    ensures |s| >= 1
    ensures forall i :: 0 <= i < |s| ==> IsLowerDigit(s[i])
    ensures s[0] == '0' <==> n == 0
    ensures n == 0 ==> s == "0"
    decreases n
  {
    DigitCharValue(n % RADIX);
    if n < RADIX then [DigitChar(n)] else Encode(n / RADIX) + [DigitChar(n % RADIX)]
  }

  /** Every character of `s` is a base-36 digit of either case. */
  predicate AllDigits(s: string)
  {
    forall i :: 0 <= i < |s| ==> DigitValue(s[i]).Some?
  }

  function Pow36(n: nat): (p: nat)
    ensures p >= 1
  {
    if n == 0 then 1 else RADIX * Pow36(n - 1)
  }

  /** The value of a non-empty digit string, least significant digit last. */
  function DecodeDigits(s: string): (r: Option<nat>)
    requires |s| >= 1
    ensures r.Some? <==> AllDigits(s)
    ensures r.Some? ==> r.value < Pow36(|s|)
    decreases |s|
  {
    var last := DigitValue(s[|s| - 1]);
    if last.None? then None
    else if |s| == 1 then Some(last.value)
    else
      var prefix := s[..|s| - 1];
      assert forall i :: 0 <= i < |prefix| ==> prefix[i] == s[i];
      match DecodeDigits(prefix)
      case None => None
      case Some(v) => Some(v * RADIX + last.value)
  }

  /** `parseInt(key, 36)`: `None` (NaN) for the empty key or any non-digit character. */
  function Decode(key: string): (r: Option<nat>)
    ensures r.Some? <==> |key| >= 1 && AllDigits(key)
    ensures r.Some? ==> r.value < Pow36(|key|)
  {
    if key == [] then None else DecodeDigits(key)
  }

  /** Decoding the encoding of any id gives the id back. */
  lemma {:induction false} RoundTrip(n: nat)
    ensures Decode(Encode(n)) == Some(n)
    decreases n
  {
    DigitCharValue(n % RADIX);
    if n >= RADIX {
      var s := Encode(n);
      var head := Encode(n / RADIX);
      assert s == head + [DigitChar(n % RADIX)];
      assert s[..|s| - 1] == head;
      RoundTrip(n / RADIX);
    }
  }

  /** The strings `toString(36)` produces: lower-case digits, no leading zero except "0" itself. */
  predicate Canonical(s: string)
  {
    |s| >= 1 && (forall i :: 0 <= i < |s| ==> IsLowerDigit(s[i])) && (s[0] == '0' ==> |s| == 1)
  }

  /** Every canonical key decodes, and encoding its value gives the same key back. */
  lemma {:induction false} CanonicalRoundTrip(s: string)
    requires Canonical(s)
    ensures Decode(s).Some? && Encode(Decode(s).value) == s
    decreases |s|
  {
    if |s| > 1 {
      var prefix := s[..|s| - 1];
      assert forall i :: 0 <= i < |prefix| ==> prefix[i] == s[i];
      CanonicalRoundTrip(prefix);
      var v := Decode(prefix).value;
      var d := DigitValue(s[|s| - 1]).value;
      assert Decode(s) == Some(v * RADIX + d);
      assert v != 0;
      var n := v * RADIX + d;
      assert n / RADIX == v && n % RADIX == d;
      assert s == prefix + [s[|s| - 1]];
    }
  }

  /** Encoding is injective: distinct ids get distinct keys. */
  lemma EncodeInjective(m: nat, n: nat)
    requires Encode(m) == Encode(n)
    ensures m == n
  {
    RoundTrip(m);
    RoundTrip(n);
  }

  /**
   * Digits are written most significant first: appending a digit `d` to
   * the key of `q` gives the key of `q * 36 + d`.
   */
  lemma EncodeAppendsLowDigit(q: nat, d: nat)
    requires q >= 1 && d < RADIX
    ensures Encode(q * RADIX + d) == Encode(q) + [DigitChar(d)]
  {
    var n := q * RADIX + d;
    assert n / RADIX == q && n % RADIX == d;
  }

  /** Thirty-six is the first two-digit key, and "10" reads back as thirty-six. */
  lemma DigitOrder()
    ensures Encode(36) == "10" && Decode("10") == Some(36)
  {
    EncodeAppendsLowDigit(1, 0);
    RoundTrip(36);
  }

  /** Upper-cases an ASCII letter, leaves every other character alone. */
  function Upper(c: char): char
  {
    if 'a' <= c <= 'z' then (c as int - 'a' as int + 'A' as int) as char else c
  }

  /** Keys are case-insensitive: upper-casing the letters of a key does not change what it decodes to. */
  lemma {:induction false} DecodeIgnoresCase(key: string)
    ensures Decode(seq(|key|, i requires 0 <= i < |key| => Upper(key[i]))) == Decode(key)
    decreases |key|
  {
    var up := seq(|key|, i requires 0 <= i < |key| => Upper(key[i]));
    if |key| > 1 {
      var prefix := key[..|key| - 1];
      assert up[..|up| - 1] == seq(|prefix|, i requires 0 <= i < |prefix| => Upper(prefix[i]));
      DecodeIgnoresCase(prefix);
    }
  }
}
