/**
 * Stage 3 and the product summary: how the AI's reply to the final question
 * becomes a 0-based index (`_parse_and_validate_number`,
 * `stage3_final_selection`), and what `generate_product_summary` returns.
 */
module FinalSelection {
  import opened Lists
  import opened Text
  import opened Oracle

  /** Replies that mean the AI could not choose. */
  const Meaningless: seq<string> := ["none", "null", "error", "fail", "false", "n/a", "na", "unknown"]

  /** The reply stripped (twice, as the source does) and lower-cased. */
  function Cleaned(text: string): string {
    Lower(Strip(Strip(text)))
  }

  /**
   * `_parse_and_validate_number`: the first number in the reply if it names an
   * option, else the whole reply read by `int()` if that names one, both made
   * 0-based; -1 for an empty or meaningless reply; 0 otherwise. A reply without
   * content (`None`) makes `.strip()` raise, which the function answers with 0.
   */
  function ParseAndValidateNumber(content: Option<string>, maxOptions: int): (r: int)
    ensures -1 <= r
    ensures maxOptions >= 1 ==> r < maxOptions
  {
    match content
    case None => 0
    case Some(text) =>
      var cleaned := Cleaned(text);
      if cleaned == "" then -1
      else
        var numbers := DigitRuns(cleaned);
        if |numbers| > 0 && 1 <= numbers[0] <= maxOptions then numbers[0] - 1
        else
          var direct := IntLiteral(cleaned);
          if direct.Some? && 1 <= direct.value <= maxOptions then direct.value - 1
          else if cleaned in Meaningless then -1
          else 0
  }

  /** The cleaned reply has the same digit runs as the reply. */
  lemma CleanedDigitRuns(text: string)
    ensures DigitRuns(Cleaned(text)) == DigitRuns(text)
  {
    DigitRunsLower(Strip(Strip(text)));
    DigitRunsStrip(Strip(text));
    DigitRunsStrip(text);
  }

  lemma MeaninglessHaveNoDigits(w: string)
    requires w in Meaningless
    ensures NoDigits(w)
  {
  }

  /** Parsing fails (-1) exactly for a reply that is empty or meaningless once cleaned. */
  lemma ParseFailsExactly(content: Option<string>, maxOptions: int)
    ensures ParseAndValidateNumber(content, maxOptions) == -1 <==>
      content.Some? && (Cleaned(content.value) == "" || Cleaned(content.value) in Meaningless)
  {
    if content.Some? && Cleaned(content.value) in Meaningless {
      var cleaned := Cleaned(content.value);
      MeaninglessHaveNoDigits(cleaned);
      DigitRunsOfNoDigits(cleaned);
      NoDigitsNoInt(cleaned);
    }
  }

  /** The first number anywhere in the reply, when it names an option, is the choice. */
  lemma ParseTakesFirstNumber(text: string, maxOptions: int)
    requires DigitRuns(text) != [] && 1 <= DigitRuns(text)[0] <= maxOptions
    ensures ParseAndValidateNumber(Some(text), maxOptions) == DigitRuns(text)[0] - 1
  {
    CleanedDigitRuns(text);
  }

  /**
   * Without an underscore the `int()` attempt never changes the outcome: the
   * choice is the first number if it names an option, -1 for an empty or
   * meaningless reply, and 0 otherwise.
   */
  lemma DirectParseRedundant(text: string, maxOptions: int)
    requires '_' !in text
    ensures ParseAndValidateNumber(Some(text), maxOptions) ==
      var numbers := DigitRuns(text);
      if Cleaned(text) == "" then -1
      else if |numbers| > 0 && 1 <= numbers[0] <= maxOptions then numbers[0] - 1
      else if Cleaned(text) in Meaningless then -1
      else 0
  {
    var cleaned := Cleaned(text);
    CleanedDigitRuns(text);
    StripKeepsAbsent(text, '_');
    StripKeepsAbsent(Strip(text), '_');
    LowerKeepsUnderscoreOut(Strip(Strip(text)));
    var direct := IntLiteral(cleaned);
    if direct.Some? && direct.value >= 1 {
      IntLiteralIsFirstRun(cleaned);
    }
  }

  /**
   * With an underscore it can: `int("0_5")` is 5 while the first number found
   * is 0, so the reply `0_5` chooses option 5.
   */
  lemma UnderscoreReachesDirectParse()
    ensures DigitRuns("0_5") == [0, 5]
    ensures ParseAndValidateNumber(Some("0_5"), 9) == 4
  {
    CleanedZeroFive();
    DigitRunsZeroFive();
    IntZeroFive();
  }

  lemma CleanedZeroFive()
    ensures Cleaned("0_5") == "0_5"
  {
    StripUnchanged("0_5");
    StripUnchanged(Strip("0_5"));
    assert Lower("0_5") == "0_5";
  }

  lemma DigitRunsZeroFive()
    ensures DigitRuns("0_5") == [0, 5]
  {
    var s := "0_5";
    assert LeadingDigits(s) == 1;
    assert s[..1] == "0" && s[1..] == "_5";
    assert DecimalValue("0") == 0;
    assert "_5"[1..] == "5";
    DigitRunsOfDigits("5");
    assert DecimalValue("5") == 5;
  }

  lemma ZeroFiveGroups()
    ensures DigitGroups("0_5")
  {
    var s := "0_5";
    assert s[0] == '0' && s[1] == '_' && s[2] == '5';
  }

  lemma ZeroFiveWithoutUnderscores()
    ensures WithoutUnderscores("0_5") == "05"
  {
    var s := "0_5";
    assert s[1..] == "_5" && s[1..][1..] == "5";
    assert WithoutUnderscores("5") == "5" by {
      assert "5"[1..] == "";
    }
  }

  lemma ZeroFiveValue()
    ensures DecimalValue("05") == 5
  {
    assert "05"[..1] == "0";
    assert "0"[..0] == "";
  }

  lemma IntZeroFive()
    ensures IntLiteral("0_5") == Some(5)
  {
    var s := "0_5";
    StripUnchanged(s);
    ZeroFiveGroups();
    ZeroFiveWithoutUnderscores();
    ZeroFiveValue();
    assert s[0] == '0';
  }

  /** Replies to the final question of the kind the documentation shows. */
  lemma ParseExamples()
    ensures ParseAndValidateNumber(Some("2"), 3) == 1
    ensures ParseAndValidateNumber(None, 3) == 0
  {
    DigitRunsOfDigits("2");
    assert DecimalValue("2") == 2;
    ParseTakesFirstNumber("2", 3);
  }

  /** An empty reply and the reply `none` are failures. */
  lemma ParseFailureExamples()
    ensures ParseAndValidateNumber(Some(""), 3) == -1
    ensures ParseAndValidateNumber(Some("none"), 3) == -1
  {
    StripUnchanged("");
    ParseFailsExactly(Some("none"), 3);
    StripUnchanged("none");
    assert Lower("none") == "none";
  }

  /** The format `1.` the documentation names chooses the first option. */
  lemma ParseNumberWithDot()
    ensures ParseAndValidateNumber(Some("1."), 3) == 0
  {
    DigitRunsOne();
    assert "1." == "1" + "." && NoDigits(".");
    DigitRunsDropSuffix("1", ".");
    ParseTakesFirstNumber("1.", 3);
  }

  /** The format `Option 1` the documentation names chooses the first option. */
  lemma ParseOptionNumber()
    ensures ParseAndValidateNumber(Some("Option 1"), 3) == 0
  {
    DigitRunsOne();
    assert "Option 1" == "Option " + "1" && NoDigits("Option ");
    DigitRunsSkipPrefix("Option ", "1");
    ParseTakesFirstNumber("Option 1", 3);
  }

  lemma DigitRunsOne()
    ensures DigitRuns("1") == [1]
  {
    DigitRunsOfDigits("1");
    assert DecimalValue("1") == 1;
  }

  // ---------------------------------------------------------------------
  // Stage 3.

  /**
   * `stage3_final_selection`: -1 for no candidates, 0 for one (no call),
   * otherwise the parsed reply to the one call, with a raised call or a failed
   * parse giving -1.
   */
  function FinalIndex(candidates: seq<string>, reply: Reply): (r: int)
    ensures -1 <= r < |candidates|
  {
    if |candidates| == 0 then -1
    else if |candidates| == 1 then 0
    else
      match reply
      case CallFailed => -1
      case NoContent => ParseAndValidateNumber(None, |candidates|)
      case Content(text) => ParseAndValidateNumber(Some(text), |candidates|)
  }

  /** Whether Stage 3 consults the AI at all. */
  predicate Stage3Calls(candidates: seq<string>) {
    |candidates| >= 2
  }

  /**
   * Stage 3 fails exactly when there is nothing to choose from, or it asks and
   * the call raises or the reply is empty or meaningless.
   */
  lemma FinalIndexFails(candidates: seq<string>, reply: Reply)
    ensures FinalIndex(candidates, reply) == -1 <==>
      |candidates| == 0
      || (Stage3Calls(candidates)
          && (reply.CallFailed? || (reply.Content? && (Cleaned(reply.text) == "" || Cleaned(reply.text) in Meaningless))))
  {
    if Stage3Calls(candidates) {
      match reply
      case CallFailed =>
      case NoContent =>
      case Content(text) => ParseFailsExactly(Some(text), |candidates|);
    }
  }

  // ---------------------------------------------------------------------
  // The product summary.

  /** Characters of the description kept when the summary call fails. */
  const SummaryLimit: nat := 400

  /** The description, cut to 400 characters plus `...` when longer. */
  function FallbackSummary(product: string): (r: string)
    ensures |r| <= SummaryLimit + 3
    ensures |product| <= SummaryLimit ==> r == product
    ensures |product| > SummaryLimit ==>
      |r| == SummaryLimit + 3 && StartsWith(product, r[..SummaryLimit]) && EndsWith(r, "...")
  {
    if |product| > SummaryLimit then product[..SummaryLimit] + "..." else product
  }

  /**
   * `generate_product_summary`: the reply stripped, or the fallback when the
   * call raised or the reply had no content.
   */
  function ProductSummary(product: string, reply: Reply): (r: string)
    ensures reply.Content? ==> r == Strip(reply.text) && Strip(r) == r
    ensures !reply.Content? ==> r == FallbackSummary(product) && |r| <= SummaryLimit + 3
  {
    match reply
    case Content(text) =>
      StripIdempotent(text);
      Strip(text)
    case _ => FallbackSummary(product)
  }
}
