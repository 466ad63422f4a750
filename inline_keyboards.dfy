/**
 * The inline keyboards (bot/keyboards/inline.py): a keyboard is rows of
 * buttons, and what matters to the rest of the bot is each button's
 * callback data, which the router parses back.
 */
module InlineKeyboards {
  import opened Options
  import opened Strings

  /** `AVAILABLE_LANGUAGES` (config.py). */
  const AvailableLanguages: seq<string> := ["en", "ru"]

  datatype Button = Button(text: string, callbackData: string)

  type Keyboard = seq<seq<Button>>

  /**
   * `select_language(text)`: one row, the i-th button labelled `text[i]`
   * selecting the i-th available language. More labels than languages make
   * the indexing raise IndexError: None.
   */
  function SelectLanguage(texts: seq<string>): (r: Option<Keyboard>)
    ensures r.Some? <==> |texts| <= |AvailableLanguages|
    ensures r.Some? ==> |r.value| == 1 && |r.value[0]| == |texts|
    ensures r.Some? ==> forall i :: 0 <= i < |texts| ==>
      r.value[0][i].text == texts[i] && r.value[0][i].callbackData == "select_language_" + AvailableLanguages[i]
  {
    if |texts| > |AvailableLanguages| then None
    else Some([seq(|texts|, i requires 0 <= i < |texts| => Button(texts[i], "select_language_" + AvailableLanguages[i]))])
  }

  /** `close_text(text)`: a single button whose data is "close". */
  function CloseText(text: string): (k: Keyboard)
    ensures |k| == 1 && |k[0]| == 1 && k[0][0].text == text && k[0][0].callbackData == "close"
  {
    [[Button(text, "close")]]
  }

  /**
   * `keyboard_md(row_id, text)`: a single button carrying the message row
   * id after "markdown_", in a last field free of '_' that `int()` reads back.
   */
  function KeyboardMd(rowId: int, text: string): (k: Keyboard)
    ensures |k| == 1 && |k[0]| == 1 && k[0][0].text == text
    ensures var d := k[0][0].callbackData;
      |d| > 9 && d[..9] == "markdown_" && '_' !in d[9..] && ParseInt(d[9..]) == Some(rowId)
  {
    IntToStringChars(rowId);
    IntToStringRoundTrip(rowId);
    var d := "markdown_" + IntToString(rowId);
    assert d[9..] == IntToString(rowId);
    [[Button(text, d)]]
  }

  /**
   * `check_payment(text, payment_id)`: a single button carrying the payment
   * id after "check_payment_", in a last field free of '_' that `int()` reads back.
   */
  function CheckPayment(text: string, paymentId: int): (k: Keyboard)
    ensures |k| == 1 && |k[0]| == 1 && k[0][0].text == text
    ensures var d := k[0][0].callbackData;
      |d| > 14 && d[..14] == "check_payment_" && '_' !in d[14..] && ParseInt(d[14..]) == Some(paymentId)
  {
    IntToStringChars(paymentId);
    IntToStringRoundTrip(paymentId);
    var d := "check_payment_" + IntToString(paymentId);
    assert d[14..] == IntToString(paymentId);
    [[Button(text, d)]]
  }
}
