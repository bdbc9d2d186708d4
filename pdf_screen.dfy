/** The older `PdfScreen`: four margin text fields that accept only digit
    strings, and the condition that enables its "add margins" button. */
module PdfScreen {
  import opened Kotlin
  import opened KotlinText
  import opened Android
  import Utils

  /** The characters `\d` matches, as the platform's regular-expression
      engine reads it. It holds at least the ASCII digits: the JVM's default
      reading is exactly those, while Android's ICU-based engine takes every
      Unicode decimal digit (general category Nd), such as U+0663. */
  predicate DigitClass(decimalDigit: char -> bool)
  {
    forall c :: IsDigit(c) ==> decimalDigit(c)
  }

  /** The regular expression `^\d+$`: one or more characters of the digit
      class, matched one character at a time. */
  function DigitsPlus(text: string, decimalDigit: char -> bool): (r: bool)
    ensures r <==> |text| > 0 && forall i :: 0 <= i < |text| ==> decimalDigit(text[i])
  {
    |text| > 0 && decimalDigit(text[0]) && (|text| == 1 || DigitsPlus(text[1..], decimalDigit))
  }

  /** `numberFilter`: the empty text or one or more digits. */
  function NumberFilter(text: string, decimalDigit: char -> bool): (r: bool)
    ensures r <==> forall i :: 0 <= i < |text| ==> decimalDigit(text[i])
  {
    |text| == 0 || DigitsPlus(text, decimalDigit)
  }

  /** Everything `isNumber` accepts passes the screen's filter, and with
      `\d` read as the ASCII digits the two accept the same strings. */
  lemma NumberFilterIsIsNumber(text: string, decimalDigit: char -> bool)
    requires DigitClass(decimalDigit)
    ensures Utils.IsNumber(text) ==> NumberFilter(text, decimalDigit)
    ensures NumberFilter(text, c => IsDigit(c)) == Utils.IsNumber(text)
  {
  }

  /** Where `\d` takes a non-ASCII decimal digit, as on Android, the two
      checks part: the text U+0663 (ARABIC-INDIC DIGIT THREE) passes the filter but
      not `isNumber`. */
  lemma NonAsciiDigitPartsChecks(decimalDigit: char -> bool)
    requires decimalDigit('\U{0663}')
    ensures NumberFilter("\U{0663}", decimalDigit) && !Utils.IsNumber("\U{0663}")
  {
    assert !IsDigit("\U{0663}"[0]);
  }

  /** A field's `onValueChange`: the proposed text replaces the current one
      only when it passes the filter. */
  function Accept(current: string, proposed: string, decimalDigit: char -> bool): (r: string)
    ensures NumberFilter(proposed, decimalDigit) ==> r == proposed
    ensures !NumberFilter(proposed, decimalDigit) ==> r == current
    ensures NumberFilter(current, decimalDigit) ==> NumberFilter(r, decimalDigit)
  {
    if NumberFilter(proposed, decimalDigit) then proposed else current
  }

  /** The four `remember`ed field texts. */
  class MarginFields {
    var topText: string
    var bottomText: string
    var leftText: string
    var rightText: string
    /** The characters the filter's `\d` matches on this platform. */
    const decimalDigit: char -> bool

    /** Every field holds "" or a digit string. */
    ghost predicate Valid()
      reads this
    {
      && NumberFilter(topText, decimalDigit) && NumberFilter(bottomText, decimalDigit)
      && NumberFilter(leftText, decimalDigit) && NumberFilter(rightText, decimalDigit)
    }

    constructor(decimalDigit: char -> bool)
      ensures Valid() && this.decimalDigit == decimalDigit
      ensures topText == "" && bottomText == "" && leftText == "" && rightText == ""
    {
      this.decimalDigit := decimalDigit;
      topText := "";
      bottomText := "";
      leftText := "";
      rightText := "";
    }

    method OnTopChange(text: string)
      requires Valid()
      modifies this
      ensures Valid()
      ensures topText == Accept(old(topText), text, decimalDigit)
      ensures bottomText == old(bottomText) && leftText == old(leftText) && rightText == old(rightText)
    {
      if NumberFilter(text, decimalDigit) {
        topText := text;
      }
    }

    method OnLeftChange(text: string)
      requires Valid()
      modifies this
      ensures Valid()
      ensures leftText == Accept(old(leftText), text, decimalDigit)
      ensures topText == old(topText) && bottomText == old(bottomText) && rightText == old(rightText)
    {
      if NumberFilter(text, decimalDigit) {
        leftText := text;
      }
    }

    method OnRightChange(text: string)
      requires Valid()
      modifies this
      ensures Valid()
      ensures rightText == Accept(old(rightText), text, decimalDigit)
      ensures topText == old(topText) && bottomText == old(bottomText) && leftText == old(leftText)
    {
      if NumberFilter(text, decimalDigit) {
        rightText := text;
      }
    }

    method OnBottomChange(text: string)
      requires Valid()
      modifies this
      ensures Valid()
      ensures bottomText == Accept(old(bottomText), text, decimalDigit)
      ensures topText == old(topText) && leftText == old(leftText) && rightText == old(rightText)
    {
      if NumberFilter(text, decimalDigit) {
        bottomText := text;
      }
    }

    /** The button's `enabled`: a source is given and no field is empty.
        With the field invariant, that is a source and four non-empty digit
        strings. */
    function AddMarginsEnabled(pdfUri: Nullable<Uri>): (enabled: bool)
      reads this
      ensures enabled ==> pdfUri.NonNull?
      ensures Valid() ==> (enabled <==>
        && pdfUri.NonNull?
        && DigitsPlus(topText, decimalDigit) && DigitsPlus(bottomText, decimalDigit)
        && DigitsPlus(leftText, decimalDigit) && DigitsPlus(rightText, decimalDigit))
    {
      pdfUri.NonNull? && |topText| > 0 && |bottomText| > 0 && |leftText| > 0 && |rightText| > 0
    }
  }
}
