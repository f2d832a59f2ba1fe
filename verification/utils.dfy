/** The hash builder of src/utils.rs: a string of 64 characters, each picked
    from the lower-case hexadecimal alphabet by one random index. The random
    number generator itself is not modelled: the indices it would draw are
    passed in, in the order they are drawn. */
module Utils {
  import opened Wrappers

  /** The alphabet the hash is drawn from. */
  const HexDigits: string := "0123456789abcdef"

  /** The number of characters in one hash. */
  const HashLength: nat := 64

  /** `str::chars().nth(i)`: the character at position `i`, if there is one. */
  function Nth(s: string, i: nat): Option<char>
  {
    if i < |s| then Some(s[i]) else None
  }

  /** Draws of `gen_range(0..chars.len())`: every one is an index into the alphabet. */
  predicate IndexDraws(draws: seq<int>)
  {
    forall i :: 0 <= i < |draws| ==> 0 <= draws[i] < |HexDigits|
  }

  /** A lower-case hexadecimal digit, by character range. */
  predicate IsLowerHex(c: char)
  {
    '0' <= c <= '9' || 'a' <= c <= 'f'
  }

  /** The value of a lower-case hexadecimal digit; None for any other character. */
  function HexValue(c: char): Option<int>
  {
    if '0' <= c <= '9' then Some(c as int - '0' as int)
    else if 'a' <= c <= 'f' then Some(c as int - 'a' as int + 10)
    else None
  }

  /** The mapped iterator of `generate_hash` over the given draws: each draw is
      looked up with `nth` and unwrapped. The unwrap is the `.value` below,
      which Dafny accepts only because every draw is in range. */
  function HexChars(draws: seq<int>): (s: string)
    requires IndexDraws(draws)
    ensures |s| == |draws|
    ensures forall i :: 0 <= i < |s| ==> s[i] == HexDigits[draws[i]]
  {
    if draws == [] then []
    else [Nth(HexDigits, draws[0]).value] + HexChars(draws[1..])
  }

  /** `generate_hash`: 64 lower-case hexadecimal digits whose values are the
      draws, in the order drawn, so the draws can be read back off the hash. */
  function GenerateHash(draws: seq<int>): (h: string)
    requires |draws| == HashLength
    requires IndexDraws(draws)
    ensures |h| == HashLength
    ensures forall i :: 0 <= i < |h| ==> IsLowerHex(h[i])
    ensures forall i :: 0 <= i < |h| ==> HexValue(h[i]) == Some(draws[i])
  {
    var h := HexChars(draws);
    forall i | 0 <= i < |h|
      ensures IsLowerHex(h[i]) && HexValue(h[i]) == Some(draws[i])
    {
      HexDigitValue(draws[i]);
    }
    h
  }

  /** Position `d` of the alphabet is the digit whose value is `d`. */
  lemma HexDigitValue(d: int)
    requires 0 <= d < |HexDigits|
    ensures IsLowerHex(HexDigits[d])
    ensures HexValue(HexDigits[d]) == Some(d)
  {
  }

  /** Two hashes are equal exactly when they were built from the same draws. */
  lemma HashInjective(a: seq<int>, b: seq<int>)
    requires |a| == HashLength && IndexDraws(a)
    requires |b| == HashLength && IndexDraws(b)
    ensures GenerateHash(a) == GenerateHash(b) <==> a == b
  {
  }

}
