/** The "code rain" line of src/matrix.rs: a line of 20 to 79 characters,
    each chosen from a fixed alphabet, printed in one of three green styles.
    The random number generator is not modelled: the length, the per-character
    choices and the intensity it would draw are passed in. */
module Matrix {
  import opened Wrappers

  /** The upper-case hexadecimal digits that open the alphabet. */
  const HexUpper: string := "0123456789ABCDEF"

  /** `code_chars`: the upper-case hexadecimal digits, then katakana row by
      row of the syllabary. */
  const CodeChars: string :=
    HexUpper + "アイウエオ" + "カキクケコ" + "サシスセソ" + "タチツテト" + "ナニヌネノ"
    + "ハヒフヘホ" + "マミムメモ" + "ヤユヨ" + "ラリルレロ" + "ワヲン"

  /** The number of characters in `CodeChars`, the range picks are drawn from. */
  const AlphabetSize: nat := 62

  /** A character of the alphabet. */
  predicate IsCodeChar(c: char)
  {
    exists k :: 0 <= k < |CodeChars| && CodeChars[k] == c
  }

  /** The line length is drawn from the half-open range `MinLength..MaxLength`. */
  const MinLength: nat := 20
  const MaxLength: nat := 80

  /** The number of intensities, drawn from `0..Intensities`. */
  const Intensities: nat := 3

  /** How a line is coloured: dimmed green, green, or bright green in bold. */
  datatype Style = DimGreen | Green | BrightGreenBold

  /** The one line a call prints. */
  datatype CodeLine = CodeLine(text: string, style: Style)

  /** What one call draws, in order: the length, one alphabet index per
      character, and the intensity. */
  datatype RainDraws = RainDraws(length: int, picks: seq<int>, intensity: int)

  /** Draws the generator can produce: each one in the range it is drawn from. */
  predicate ValidDraws(d: RainDraws)
  {
    && MinLength <= d.length < MaxLength
    && |d.picks| == d.length
    && (forall i :: 0 <= i < |d.picks| ==> 0 <= d.picks[i] < AlphabetSize)
    && 0 <= d.intensity < Intensities
  }

  /** `SliceRandom::choose`: nothing from an empty slice, otherwise the
      element at the drawn index. */
  function Choose(alphabet: string, draw: int): Option<char>
    requires alphabet == [] || 0 <= draw < |alphabet|
  {
    if alphabet == [] then None else Some(alphabet[draw])
  }

  /** The characters of a line: `chars_vec.choose(rng).unwrap()` once per
      pick. The unwrap is the `.value` below, which Dafny accepts only because
      the alphabet is not empty. */
  function ChooseAll(picks: seq<int>): (s: string)
    requires forall i :: 0 <= i < |picks| ==> 0 <= picks[i] < |CodeChars|
    ensures |s| == |picks|
    ensures forall i :: 0 <= i < |s| ==> s[i] == CodeChars[picks[i]]
  {
    if picks == [] then []
    else [Choose(CodeChars, picks[0]).value] + ChooseAll(picks[1..])
  }

  /** The `match intensity`: 0 is dimmed, 1 is plain, everything else bright. */
  function StyleOf(intensity: int): Style
  {
    match intensity
    case 0 => DimGreen
    case 1 => Green
    case _ => BrightGreenBold
  }

  /** `generate_matrix_code`: one line whose length is the drawn length,
      whose characters all come from the alphabet, and whose style is the
      one the drawn intensity names. */
  function GenerateMatrixCode(d: RainDraws): (line: CodeLine)
    requires ValidDraws(d)
    ensures MinLength <= |line.text| < MaxLength
    ensures |line.text| == d.length
    ensures forall i :: 0 <= i < |line.text| ==> IsCodeChar(line.text[i])
    ensures line.style == DimGreen <==> d.intensity == 0
    ensures line.style == Green <==> d.intensity == 1
    ensures line.style == BrightGreenBold <==> d.intensity == 2
  {
    CodeLine(ChooseAll(d.picks), StyleOf(d.intensity))
  }

  /** The intensity a style is printed for: the inverse of StyleOf on `0..3`. */
  function IntensityOf(style: Style): int
  {
    match style
    case DimGreen => 0
    case Green => 1
    case BrightGreenBold => 2
  }

  /** The position of the first occurrence of `c` in `s`, or `|s|` when it does
      not occur. */
  function IndexOf(s: string, c: char): (k: nat)
    ensures k <= |s|
    ensures k < |s| ==> s[k] == c
    ensures forall j :: 0 <= j < k ==> s[j] != c
  {
    if s == [] || s[0] == c then 0 else 1 + IndexOf(s[1..], c)
  }

  /** Reads the draws back off a printed line: its length, the alphabet index
      of each character, and the intensity of its style. */
  function ReadBack(line: CodeLine): RainDraws
  {
    RainDraws(|line.text|,
              seq(|line.text|, i requires 0 <= i < |line.text| => IndexOf(CodeChars, line.text[i])),
              IntensityOf(line.style))
  }

  /** A line determines the draws it was built from: reading them back off
      `generate_matrix_code`'s line gives the draws. */
  lemma ReadBackGenerate(d: RainDraws)
    requires ValidDraws(d)
    ensures ReadBack(GenerateMatrixCode(d)) == d
  {
    CodeCharsIncreasing();
    var line := GenerateMatrixCode(d);
    var r := ReadBack(line);
    forall i | 0 <= i < |d.picks|
      ensures r.picks[i] == d.picks[i]
    {
      IndexOfIncreasing(CodeChars, d.picks[i]);
    }
  }

  /** In a string without repeated characters the first occurrence of the
      character at `k` is `k`. */
  lemma IndexOfIncreasing(s: string, k: int)
    requires Increasing(s) && 0 <= k < |s|
    ensures IndexOf(s, s[k]) == k
  {
  }

  /** Every character strictly greater than the ones before it. */
  ghost predicate Increasing(s: string)
  {
    forall i, j :: 0 <= i < j < |s| ==> s[i] < s[j]
  }

  /** Two increasing strings, the first ending below where the second starts,
      make an increasing string. */
  lemma IncreasingAppend(a: string, b: string)
    requires Increasing(a) && Increasing(b)
    requires |a| > 0 && |b| > 0 ==> a[|a| - 1] < b[0]
    ensures Increasing(a + b)
  {
  }


  /** The alphabet is in strictly increasing code-point order, so no character
      occurs in it twice. */
  lemma CodeCharsIncreasing()
    ensures |CodeChars| == AlphabetSize
    ensures Increasing(CodeChars)
  {
    var acc := MiddleRowsIncreasing();
    acc := AppendRow(acc, "ヤユヨ");
    acc := AppendRow(acc, "ラリルレロ");
    acc := AppendRow(acc, "ワヲン");
  }

  /** A step of CodeCharsIncreasing: the digits and the first seven rows. */
  lemma MiddleRowsIncreasing() returns (acc: string)
    ensures acc == HexUpper + "アイウエオ" + "カキクケコ" + "サシスセソ" + "タチツテト" + "ナニヌネノ"
                   + "ハヒフヘホ" + "マミムメモ"
    ensures Increasing(acc) && |acc| == 51 && acc[50] == 'モ'
  {
    acc := UpperRowsIncreasing();
    acc := AppendRow(acc, "ナニヌネノ");
    acc := AppendRow(acc, "ハヒフヘホ");
    acc := AppendRow(acc, "マミムメモ");
  }

  /** A step of CodeCharsIncreasing: the digits and the first four rows. */
  lemma UpperRowsIncreasing() returns (acc: string)
    ensures acc == HexUpper + "アイウエオ" + "カキクケコ" + "サシスセソ" + "タチツテト"
    ensures Increasing(acc) && |acc| == 36 && acc[35] == 'ト'
  {
    acc := HexUpper;
    acc := AppendRow(acc, "アイウエオ");
    acc := AppendRow(acc, "カキクケコ");
    acc := AppendRow(acc, "サシスセソ");
    acc := AppendRow(acc, "タチツテト");
  }

  /** One step of CodeCharsIncreasing: a row above everything so far keeps the
      alphabet increasing. */
  lemma AppendRow(acc: string, row: string) returns (next: string)
    requires Increasing(acc) && Increasing(row)
    requires |acc| > 0 && |row| > 0 && acc[|acc| - 1] < row[0]
    ensures next == acc + row && Increasing(next)
  {
    IncreasingAppend(acc, row);
    next := acc + row;
  }
}
