/** Helpers for Arabic text: letter classification, text direction,
    positional letter forms, a per-character Latin transliteration and
    Arabic-Indic digits. Strings are sequences of Unicode code points. */
module ArabicUtils {
  import opened Common
  import opened Schema

  /** The Arabic block, U+0600 .. U+06FF. */
  predicate InArabicBlock(c: char) {
    '\U{0600}' <= c <= '\U{06FF}'
  }

  /** `isArabicLetter`: a one-character string from the Arabic block.
      (A character outside the Basic Multilingual Plane is two UTF-16 units
      long in the source, but it lies outside the block either way.) */
  function IsArabicLetter(s: string): (b: bool)
    ensures |s| != 1 ==> !b
    ensures |s| == 1 ==> (b <==> 0x600 <= s[0] as int <= 0x6FF)
  {
    |s| == 1 && InArabicBlock(s[0])
  }

  /** `isRTL`: the text starts with an Arabic letter. */
  function IsRTL(text: string): (b: bool)
    ensures text == [] ==> !b
    ensures text != [] ==> (b <==> IsArabicLetter([text[0]]))
  {
    if text == [] then false else IsArabicLetter(text[..1])
  }

  datatype Direction = Rtl | Ltr

  /** `getTextDirection`. */
  function GetTextDirection(text: string): (d: Direction)
    ensures d == Rtl <==> IsRTL(text)
  {
    if IsRTL(text) then Rtl else Ltr
  }

  datatype Position = Isolated | Initial | Medial | Final

  /** The form a letter record stores for a position (possibly empty). */
  function FormAt(letter: ArabicLetter, position: Position): string {
    match position
    case Isolated => letter.isolated
    case Initial => letter.initial
    case Medial => letter.medial
    case Final => letter.final
  }

  /** `getLetterForm`: the requested positional form, or the isolated form
      when that one is empty. */
  function GetLetterForm(letter: ArabicLetter, position: Position): (f: string)
    ensures FormAt(letter, position) != "" ==> f == FormAt(letter, position)
    ensures FormAt(letter, position) == "" ==> f == letter.isolated
  {
    var form := FormAt(letter, position);
    if form != "" then form else letter.isolated
  }

  /** The isolated position needs no fallback. */
  lemma IsolatedFormIsStored(letter: ArabicLetter)
    ensures GetLetterForm(letter, Isolated) == letter.isolated
  {
  }

  // ---------------------------------------------------------------------
  // Transliteration

  /** The transliteration table. */
  const TransliterationTable: map<char, string> := map[
    'ا' := "a", 'أ' := "a", 'إ' := "i", 'آ' := "aa", 'ب' := "b", 'ت' := "t",
    'ث' := "th", 'ج' := "j", 'ح' := "h", 'خ' := "kh", 'د' := "d", 'ذ' := "dh",
    'ر' := "r", 'ز' := "z", 'س' := "s", 'ش' := "sh", 'ص' := "s", 'ض' := "d",
    'ط' := "t", 'ظ' := "dh", 'ع' := "'", 'غ' := "gh", 'ف' := "f", 'ق' := "q",
    'ك' := "k", 'ل' := "l", 'م' := "m", 'ن' := "n", 'ه' := "h", 'و' := "w",
    'ي' := "y", 'ة' := "h", 'ى' := "a"
  ]

  /** `transliterationMap[char] || char`: the table entry when there is a
      non-empty one, the character itself otherwise. */
  function CharImage(c: char): (r: string)
    ensures c in TransliterationTable && TransliterationTable[c] != "" ==> r == TransliterationTable[c]
    ensures !(c in TransliterationTable && TransliterationTable[c] != "") ==> r == [c]
    ensures |r| >= 1
  {
    if c in TransliterationTable && TransliterationTable[c] != "" then TransliterationTable[c] else [c]
  }

  /** `Array.from(text).map(image).join('')`: the images of the characters,
      joined in order. */
  function JoinImages(text: string, image: char -> string): (r: string)
    decreases |text|
  {
    if text == [] then "" else JoinImages(text[..|text| - 1], image) + image(text[|text| - 1])
  }

  /** Joining the images distributes over concatenation. */
  lemma {:induction false} JoinImagesAppend(s: string, t: string, image: char -> string)
    ensures JoinImages(s + t, image) == JoinImages(s, image) + JoinImages(t, image)
    decreases |t|
  {
    if t == [] {
      assert s + t == s;
    } else {
      var t', c := t[..|t| - 1], t[|t| - 1];
      assert (s + t)[..|s + t| - 1] == s + t';
      assert (s + t)[|s + t| - 1] == c;
      JoinImagesAppend(s, t', image);
      assert JoinImages(s + t, image) == JoinImages(s + t', image) + image(c);
      assert JoinImages(t, image) == JoinImages(t', image) + image(c);
    }
  }

  /** Images of at least one character never shorten the text. */
  lemma {:induction false} JoinImagesLength(text: string, image: char -> string)
    requires forall c :: |image(c)| >= 1
    ensures |JoinImages(text, image)| >= |text|
    decreases |text|
  {
    if text != [] {
      JoinImagesLength(text[..|text| - 1], image);
    }
  }

  /** `transliterate`: the images of the characters under the table,
      joined in order. */
  function Transliterate(text: string): (r: string)
    ensures |r| >= |text|
    ensures text == [] ==> r == []
  {
    JoinImagesLength(text, CharImage);
    JoinImages(text, CharImage)
  }

  /** Transliteration works character by character: it distributes over
      concatenation. */
  lemma TransliterateAppend(s: string, t: string)
    ensures Transliterate(s + t) == Transliterate(s) + Transliterate(t)
  {
    JoinImagesAppend(s, t, CharImage);
  }

  /** A single character becomes its image; with `TransliterateAppend`,
      the output is the concatenation of the characters' images. */
  lemma TransliterateChar(c: char)
    ensures Transliterate([c]) == CharImage(c)
  {
    assert [c][..0] == [];
    assert JoinImages([c], CharImage) == JoinImages([], CharImage) + CharImage(c);
  }

  /** Text with no character from the table comes back unchanged. */
  lemma {:induction false} TransliteratePassThrough(text: string)
    requires forall i :: 0 <= i < |text| ==> text[i] !in TransliterationTable
    ensures Transliterate(text) == text
    decreases |text|
  {
    if text != [] {
      var init := text[..|text| - 1];
      TransliteratePassThrough(init);
      assert init + [text[|text| - 1]] == text;
    }
  }

  /** Every table entry is a non-empty string of printable ASCII. */
  lemma TableIsAscii()
    ensures forall c :: c in TransliterationTable ==>
              TransliterationTable[c] != "" &&
              forall i :: 0 <= i < |TransliterationTable[c]| ==> ' ' <= TransliterationTable[c][i] <= '~'
  {
  }

  predicate IsAsciiText(s: string) {
    forall i :: 0 <= i < |s| ==> s[i] < '\U{80}'
  }

  /** A word spelled only with letters from the table transliterates to
      pure ASCII. */
  lemma {:induction false} TableWordsBecomeAscii(text: string)
    requires forall i :: 0 <= i < |text| ==> text[i] in TransliterationTable
    ensures IsAsciiText(Transliterate(text))
    decreases |text|
  {
    if text != [] {
      TableIsAscii();
      TableWordsBecomeAscii(text[..|text| - 1]);
    }
  }

  // ---------------------------------------------------------------------
  // Arabic-Indic digits

  /** U+0660 + d for an ASCII digit d; every other character unchanged. */
  function ArabicDigitFor(c: char): (d: char)
    ensures IsAsciiDigit(c) ==> d as int == 0x660 + (c as int - '0' as int)
    ensures !IsAsciiDigit(c) ==> d == c
  {
    if IsAsciiDigit(c) then (0x660 + (c as int - '0' as int)) as char else c
  }

  /** `replace(/[0-9]/g, w => arabicNumerals[+w])`. */
  function ReplaceDigits(s: string): (r: string)
    ensures |r| == |s|
    ensures forall i :: 0 <= i < |s| ==> r[i] == ArabicDigitFor(s[i])
  {
    if s == [] then "" else [ArabicDigitFor(s[0])] + ReplaceDigits(s[1..])
  }

  /** `toArabicNumerals` on an integer: its decimal rendering with every
      digit in Arabic-Indic form (a leading minus sign is kept). */
  function ToArabicNumerals(n: int): (r: string)
    ensures |r| == |DecimalString(n)|
  {
    ReplaceDigits(DecimalString(n))
  }

  predicate IsArabicIndicDigit(c: char) {
    '\U{0660}' <= c <= '\U{0669}'
  }

  /** The inverse digit map, U+0660 + d back to the ASCII digit d. */
  function WesternDigitFor(c: char): (d: char)
    ensures IsArabicIndicDigit(c) ==> IsAsciiDigit(d)
  {
    if IsArabicIndicDigit(c) then (c as int - 0x660 + '0' as int) as char else c
  }

  function WesternDigits(s: string): (r: string)
    ensures |r| == |s|
    ensures forall i :: 0 <= i < |s| ==> r[i] == WesternDigitFor(s[i])
  {
    if s == [] then "" else [WesternDigitFor(s[0])] + WesternDigits(s[1..])
  }

  /** For a natural number every character is an Arabic-Indic digit, and
      the i-th one stands for the i-th decimal digit. */
  lemma NaturalsBecomeArabicDigits(n: nat)
    ensures forall i :: 0 <= i < |ToArabicNumerals(n)| ==>
              IsArabicIndicDigit(ToArabicNumerals(n)[i]) &&
              ToArabicNumerals(n)[i] as int - 0x660 == NatDigits(n)[i] as int - '0' as int
  {
  }

  /** Mapping the Arabic-Indic digits back and reading them gives the
      number again: no digit is lost or altered. */
  lemma ArabicNumeralsRoundTrip(n: nat)
    ensures WesternDigits(ToArabicNumerals(n)) == NatDigits(n)
    ensures DigitsValue(WesternDigits(ToArabicNumerals(n))) == n
  {
    var d := NatDigits(n);
    var a := ToArabicNumerals(n);
    var w := WesternDigits(a);
    assert a == ReplaceDigits(d);
    forall i | 0 <= i < |w| ensures w[i] == d[i] {
      DigitRoundTrip(d[i]);
    }
    NatDigitsValue(n);
  }

  /** One digit there and back. */
  lemma DigitRoundTrip(c: char)
    requires IsAsciiDigit(c)
    ensures WesternDigitFor(ArabicDigitFor(c)) == c
  {
  }

  /** A negative number keeps its minus sign in front. */
  lemma NegativeKeepsSign(n: int)
    requires n < 0
    ensures ToArabicNumerals(n)[0] == '-'
    ensures ToArabicNumerals(n)[1..] == ToArabicNumerals(-n)
  {
    var s := DecimalString(n);
    assert s[1..] == NatDigits(-n);
    assert ToArabicNumerals(n)[1..] == ReplaceDigits(s[1..]);
  }
}
