/**
 * The user router (bot/routers/user.py): reading callback data back, the
 * admission gate in front of every input handler with its 40-second
 * per-user request lock, the document-format check, and the payment-check
 * callback that credits a paid payment. Telegram I/O, the locks' Redis store
 * and the background processing are outside; the lock store is a map from
 * user id to expiry time, and the clock is the `now` argument.
 */
module UserRouter {
  import opened Options
  import opened Strings
  import opened Tables
  import opened UserRepo
  import opened UtilsRepo
  import opened InlineKeyboards
  import CheckPayment

  /** `DICT_FORMATS`: accepted document extensions and the MIME type each is uploaded with. */
  const DictFormats: map<string, string> := map[
    "doc" := "application/msword",
    "docx" := "application/vnd.openxmlformats-officedocument.wordprocessingml.document",
    "md" := "text/markdown",
    "pdf" := "application/pdf",
    "pptx" := "application/vnd.openxmlformats-officedocument.presentationml.presentation",
    "txt" := "text/plain",
    "py" := "text/x-python"
  ]

  /** How long a request lock lives, in seconds (`ex=40`). */
  const RequestLockSeconds: int := 40

  /** The callback handlers, in the order the router registers them. */
  datatype Route = SelectLanguageRoute | CloseRoute | CheckPaymentRoute | MarkdownRoute | Unrouted

  predicate StartsWith(s: string, prefix: string)
  {
    |prefix| <= |s| && s[..|prefix|] == prefix
  }

  /**
   * The handler a callback reaches: the first whose filter accepts its data.
   * The filters accept disjoint data, so each handler gets exactly the data
   * its own filter accepts, whatever the order of registration.
   */
  function RouteOf(data: string): (r: Route)
    ensures r == SelectLanguageRoute <==> StartsWith(data, "select_language_")
    ensures r == CloseRoute <==> data == "close"
    ensures r == CheckPaymentRoute <==> StartsWith(data, "check_payment_")
    ensures r == MarkdownRoute <==> StartsWith(data, "markdown_")
  {
    assert StartsWith(data, "select_language_") ==> data[0] == 's' && |data| >= 16;
    assert StartsWith(data, "check_payment_") ==> data[0] == 'c' && data[1] == 'h';
    assert StartsWith(data, "markdown_") ==> data[0] == 'm';
    assert data == "close" ==> data[0] == 'c' && data[1] == 'l' && |data| == 5;
    if StartsWith(data, "select_language_") then SelectLanguageRoute
    else if data == "close" then CloseRoute
    else if StartsWith(data, "check_payment_") then CheckPaymentRoute
    else if StartsWith(data, "markdown_") then MarkdownRoute
    else Unrouted
  }

  /** Every button the inline keyboards build reaches the handler meant for it. */
  lemma KeyboardsRouteToTheirHandlers(texts: seq<string>, i: int, text: string, rowId: int, paymentId: int)
    requires |texts| <= |AvailableLanguages| && 0 <= i < |texts|
    ensures SelectLanguage(texts).Some? && RouteOf(SelectLanguage(texts).value[0][i].callbackData) == SelectLanguageRoute
    ensures RouteOf(CloseText(text)[0][0].callbackData) == CloseRoute
    ensures RouteOf(KeyboardMd(rowId, text)[0][0].callbackData) == MarkdownRoute
    ensures RouteOf(InlineKeyboards.CheckPayment(text, paymentId)[0][0].callbackData) == CheckPaymentRoute
  {
    var lang := "select_language_" + AvailableLanguages[i];
    assert lang[..16] == "select_language_";
    var md := "markdown_" + IntToString(rowId);
    assert md[..9] == "markdown_";
    assert md[0] != "select_language_"[0] && md[0] != "check_payment_"[0];
    var pay := "check_payment_" + IntToString(paymentId);
    assert pay[..14] == "check_payment_";
    assert pay[0] != "select_language_"[0];
  }

  /** `callback.data.split('_')[2]`; None where the index raises IndexError. */
  function LanguageOf(data: string): (r: Option<string>)
    ensures r.Some? ==> '_' !in r.value
  {
    SplitFieldsLackSeparator(data, '_');
    var parts := Split(data, '_');
    if |parts| > 2 then Some(parts[2]) else None
  }

  /** A language code without '_' comes back out of `select_language_{code}`. */
  lemma LanguageRoundTrip(lang: string)
    requires '_' !in lang
    ensures LanguageOf("select_language_" + lang) == Some(lang)
  {
    assert "select_language_" + lang == "select" + ['_'] + ("language" + ['_'] + lang);
    SplitAfterField("select", "language" + ['_'] + lang, '_');
    SplitAfterField("language", lang, '_');
    SplitNoSeparator(lang, '_');
  }

  /** A code that holds '_' is cut at it: "pt_BR" would be read as "pt". */
  lemma LanguageCutAtUnderscore(lang: string, rest: string)
    requires '_' !in lang
    ensures LanguageOf("select_language_" + lang + "_" + rest) == Some(lang)
  {
    var tail := lang + ['_'] + rest;
    assert "select_language_" + lang + "_" + rest == "select" + ['_'] + ("language" + ['_'] + tail);
    SplitAfterField("select", "language" + ['_'] + tail, '_');
    SplitAfterField("language", tail, '_');
    SplitAfterField(lang, rest, '_');
  }

  /** Every button of the language keyboard selects its language. */
  lemma SelectLanguageButtonsParse(texts: seq<string>, i: int)
    requires |texts| <= |AvailableLanguages| && 0 <= i < |texts|
    ensures SelectLanguage(texts).Some?
    ensures LanguageOf(SelectLanguage(texts).value[0][i].callbackData) == Some(AvailableLanguages[i])
  {
    assert '_' !in AvailableLanguages[i] by {
      assert AvailableLanguages[i] == "en" || AvailableLanguages[i] == "ru";
    }
    LanguageRoundTrip(AvailableLanguages[i]);
  }

  /** `int(callback.data.split('_')[-1])`; None where `int` raises ValueError. */
  function TrailingId(data: string): (r: Option<int>)
    ensures '_' !in data ==> r == ParseInt(data)
  {
    assert '_' !in data ==> Split(data, '_') == [data] by {
      if '_' !in data { SplitNoSeparator(data, '_'); }
    }
    ParseInt(LastField(data, '_'))
  }

  /** After a prefix ending in '_', a field free of '_' that `int()` reads is the id read back. */
  lemma TrailingIdReadsLastField(prefix: string, field: string, id: int)
    requires |prefix| > 0 && prefix[|prefix| - 1] == '_'
    requires '_' !in field && ParseInt(field) == Some(id)
    ensures TrailingId(prefix + field) == Some(id)
  {
    var head := prefix[..|prefix| - 1];
    assert prefix + field == head + ['_'] + field;
    LastFieldAfter(head, field, '_');
  }

  /** The markdown button's data reads back as the message row id. */
  lemma MarkdownIdRoundTrip(rowId: int, text: string)
    ensures TrailingId(KeyboardMd(rowId, text)[0][0].callbackData) == Some(rowId)
  {
    var d := KeyboardMd(rowId, text)[0][0].callbackData;
    assert d == d[..9] + d[9..];
    TrailingIdReadsLastField(d[..9], d[9..], rowId);
  }

  /** The payment button's data reads back as the payment id. */
  lemma CheckPaymentIdRoundTrip(paymentId: int, text: string)
    ensures TrailingId(InlineKeyboards.CheckPayment(text, paymentId)[0][0].callbackData) == Some(paymentId)
  {
    var d := InlineKeyboards.CheckPayment(text, paymentId)[0][0].callbackData;
    assert d == d[..14] + d[14..];
    TrailingIdReadsLastField(d[..14], d[14..], paymentId);
  }

  /** The MIME type a document is accepted with: the text after its last '.' must be a known extension. */
  function DocumentMime(fileName: string): (r: Option<string>)
    ensures r.Some? ==> r.value in DictFormats.Values
    ensures '.' !in fileName ==> r == (if fileName in DictFormats then Some(DictFormats[fileName]) else None)
  {
    assert '.' !in fileName ==> LastField(fileName, '.') == fileName by {
      if '.' !in fileName {
        SplitNoSeparator(fileName, '.');
      }
    }
    var ext := LastField(fileName, '.');
    if ext in DictFormats then Some(DictFormats[ext]) else None
  }

  /** Only the last extension counts: "report.v2.pdf" is a PDF, "notes.pdf.exe" is refused. */
  lemma DocumentMimeLastExtension(base: string, ext: string)
    requires '.' !in ext
    ensures DocumentMime(base + "." + ext) == (if ext in DictFormats then Some(DictFormats[ext]) else None)
  {
    assert base + "." + ext == base + ['.'] + ext;
    LastFieldAfter(base, ext, '.');
  }

  /** The `request_{id}` keys: for each user with a lock, the time it expires. */
  class RequestLocks {
    var expiry: map<int, int>

    constructor ()
      ensures expiry == map[]
    {
      expiry := map[];
    }

    /** `redis.get(f'request_{id}')` is set at time `now`. */
    predicate Held(userId: int, now: int)
      reads this
    {
      userId in expiry && now < expiry[userId]
    }

    /** `redis.set(f'request_{id}', 't', ex=seconds)`. */
    method Set(userId: int, now: int, seconds: int)
      modifies this
      ensures expiry == old(expiry)[userId := now + seconds]
      ensures forall t :: now <= t < now + seconds ==> Held(userId, t)
    {
      expiry := expiry[userId := now + seconds];
    }

    /** `redis.delete(f'request_{id}')`. */
    method Delete(userId: int)
      modifies this
      ensures expiry == old(expiry) - {userId}
      ensures forall t :: !Held(userId, t)
    {
      expiry := expiry - {userId};
    }
  }

  /** What the gate lets through. */
  datatype Admission = Ignored | NoCredits | Admitted

  /**
   * The gate every input handler opens with: a user with a live request
   * lock is ignored; in private mode only the admin gets through; otherwise
   * a balance of zero or less gets the no-credits warning.
   */
  method Gate(locks: RequestLocks, user: User, fromId: int, now: int, typeUsage: string, adminId: int)
    returns (a: Admission)
    ensures a == Admitted <==>
      !locks.Held(fromId, now) && (if typeUsage == "private" then fromId == adminId else user.balance > 0.0)
    ensures a == NoCredits <==> !locks.Held(fromId, now) && typeUsage != "private" && user.balance <= 0.0
  {
    if locks.Held(fromId, now) {
      return Ignored;
    }
    if typeUsage == "private" {
      if fromId != adminId {
        return Ignored;
      }
    } else {
      if user.balance <= 0.0 {
        return NoCredits;
      }
    }
    return Admitted;
  }

  /**
   * `text_input` (and `photo_input`, `input_voice`, which share the
   * prologue): past the gate, the user's request lock is set for 40 seconds
   * before the request is handed to the background task, so any further
   * input from that user within those seconds is ignored.
   */
  method TextInput(locks: RequestLocks, user: User, fromId: int, now: int, typeUsage: string, adminId: int)
    returns (a: Admission)
    modifies locks
    ensures a == Admitted <==>
      !old(locks.Held(fromId, now)) && (if typeUsage == "private" then fromId == adminId else user.balance > 0.0)
    ensures a == NoCredits <==> !old(locks.Held(fromId, now)) && typeUsage != "private" && user.balance <= 0.0
    ensures a == Admitted ==> locks.expiry == old(locks.expiry)[fromId := now + RequestLockSeconds]
    ensures a == Admitted ==> forall t :: now <= t < now + RequestLockSeconds ==> locks.Held(fromId, t)
    ensures a != Admitted ==> locks.expiry == old(locks.expiry)
  {
    a := Gate(locks, user, fromId, now, typeUsage, adminId);
    if a == Admitted {
      locks.Set(fromId, now, RequestLockSeconds);
    }
  }

  /** How `input_document` ends. */
  datatype DocumentOutcome = Refused(admission: Admission) | BadFormat | Uploaded(mime: string) | UploadFailed(mime: string)

  /**
   * `input_document`: past the gate, a file whose extension is not known is
   * refused before any lock is taken; otherwise the lock is set, the upload
   * (an input here: whether `add_file_to_memory` succeeded) runs with the
   * extension's MIME type, and the lock is deleted whatever the upload did.
   */
  method InputDocument(locks: RequestLocks, user: User, fromId: int, fileName: string, now: int,
                       typeUsage: string, adminId: int, uploadSucceeds: bool)
    returns (r: DocumentOutcome)
    modifies locks
    ensures r.Refused? <==>
      old(locks.Held(fromId, now)) || (if typeUsage == "private" then fromId != adminId else user.balance <= 0.0)
    ensures r.Refused? ==> r.admission != Admitted
    ensures r.Refused? ==>
      (r.admission == NoCredits <==> !old(locks.Held(fromId, now)) && typeUsage != "private" && user.balance <= 0.0)
    ensures r.Refused? || r == BadFormat ==> locks.expiry == old(locks.expiry)
    ensures r == BadFormat ==> DocumentMime(fileName).None?
    ensures r.Uploaded? || r.UploadFailed? ==>
      && DocumentMime(fileName) == Some(r.mime)
      && locks.expiry == old(locks.expiry) - {fromId}
      && (r.Uploaded? <==> uploadSucceeds)
  {
    var a := Gate(locks, user, fromId, now, typeUsage, adminId);
    if a != Admitted {
      return Refused(a);
    }
    var mime := DocumentMime(fileName);
    if mime.None? {
      return BadFormat;
    }
    locks.Set(fromId, now, RequestLockSeconds);
    if uploadSucceeds {
      r := Uploaded(mime.value);
    } else {
      r := UploadFailed(mime.value);
    }
    locks.Delete(fromId);
  }

  /**
   * How `check_payment` ends: the success text, the error text, an exception
   * out of the handler, or no end at all while the check hangs.
   */
  datatype CallbackOutcome = Success | ErrorText | Raised | Waiting

  /** What the payment check is given to look at: the TON events, or the SOL token decimals, ATA and signature fetches. */
  datatype ChainView = ChainView(tonEvents: seq<CheckPayment.Event>, solDecimals: nat, solAta: string,
                                 solFetches: seq<CheckPayment.Fetch>)

  /**
   * `check_payment`: the payment id comes from the callback data (a bad id
   * raises before the handler's `try`). The payment is checked on the chain
   * of its currency; when the check says paid, the user who pressed the
   * button gets `amount_usd * 1000` credits and the payment is marked
   * 'confirmed'. Anything else leaves the database as it was. Neither the
   * payment's owner nor its status is looked at: a payment already
   * confirmed that is checked again is credited again.
   */
  method CheckPaymentCallback(userRepo: UserRepository, utilsRepo: UtilsRepository, user: User, data: string,
                              chain: ChainView)
    returns (out: CallbackOutcome, verdict: Option<CheckPayment.Verdict>)
    requires userRepo.db == utilsRepo.db && userRepo.db.Valid()
    modifies userRepo.db
    ensures userRepo.db.Valid()
    ensures TrailingId(data).None? ==> out == Raised && verdict.None?
    ensures out == Raised <==> TrailingId(data).None?
    ensures out == ErrorText <==>
      TrailingId(data).Some? && verdict != Some(CheckPayment.Paid) && verdict != Some(CheckPayment.Hangs)
    ensures verdict.Some? <==> TrailingId(data).Some? && PaymentWithId(old(userRepo.db.payments), TrailingId(data).value).Some?
    ensures out == Success <==> verdict == Some(CheckPayment.Paid)
    ensures out == Waiting <==> verdict == Some(CheckPayment.Hangs)
    ensures out != Success ==> unchanged(userRepo.db)
    ensures out == Success ==>
      var p := PaymentWithId(old(userRepo.db.payments), TrailingId(data).value).value;
      && userRepo.db.users.Keys == old(userRepo.db.users.Keys)
      && (user.telegramId in userRepo.db.users ==>
            userRepo.db.users[user.telegramId].balance
              == old(userRepo.db.users[user.telegramId]).balance + (p.amountUsd * 1000) as real)
      && (forall k :: k in userRepo.db.users && k != user.telegramId ==> userRepo.db.users[k] == old(userRepo.db.users[k]))
      && |userRepo.db.payments| == |old(userRepo.db.payments)|
      && (forall i :: 0 <= i < |userRepo.db.payments| ==>
            userRepo.db.payments[i] == (if old(userRepo.db.payments)[i].id == p.id
                                        then old(userRepo.db.payments)[i].(status := Some("confirmed"))
                                        else old(userRepo.db.payments)[i]))
  {
    var id := TrailingId(data);
    if id.None? {
      return Raised, None;
    }
    var payment := utilsRepo.GetPayment(id.value);
    if payment.None? {
      // `payment.crypto_currency` on None raises inside the `try`.
      return ErrorText, None;
    }
    var p := payment.value;
    var v;
    if p.currency == "SOL" {
      v := CheckPayment.CheckPaymentSol(p.cryptoAmount, chain.solDecimals, chain.solAta, chain.solFetches);
    } else {
      v := CheckPayment.CheckPaymentTon(p.cryptoAmount, chain.tonEvents);
    }
    verdict := Some(v);
    if v == CheckPayment.Paid {
      Confirm(userRepo, utilsRepo, user.telegramId, p);
      return Success, verdict;
    }
    if v == CheckPayment.Hangs {
      // The check never returns, so the wait message is never edited.
      return Waiting, verdict;
    }
    return ErrorText, verdict;
  }

  /**
   * The paid branch of `check_payment`: the user gets `amount_usd * 1000`
   * credits and the payment is marked 'confirmed'.
   */
  method Confirm(userRepo: UserRepository, utilsRepo: UtilsRepository, userId: int, p: Payment)
    requires userRepo.db == utilsRepo.db && userRepo.db.Valid()
    modifies userRepo.db
    ensures userRepo.db.Valid()
    ensures userRepo.db.users.Keys == old(userRepo.db.users.Keys)
    ensures userId in userRepo.db.users ==>
      userRepo.db.users[userId].balance == old(userRepo.db.users[userId]).balance + (p.amountUsd * 1000) as real
    ensures forall k :: k in userRepo.db.users && k != userId ==> userRepo.db.users[k] == old(userRepo.db.users[k])
    ensures |userRepo.db.payments| == |old(userRepo.db.payments)|
    ensures forall i :: 0 <= i < |userRepo.db.payments| ==>
      userRepo.db.payments[i] == (if old(userRepo.db.payments)[i].id == p.id
                                  then old(userRepo.db.payments)[i].(status := Some("confirmed"))
                                  else old(userRepo.db.payments)[i])
  {
    ghost var payments := userRepo.db.payments;
    userRepo.AddUserCredits(userId, p.amountUsd * 1000);
    assert userRepo.db.payments == payments;
    utilsRepo.UpdatePaymentStatus(p.id, "confirmed");
  }

  /** What `select_language` does with the database: the language field is set, or the handler raises. */
  method SelectLanguageCallback(userRepo: UserRepository, user: User, data: string) returns (lang: Option<string>)
    requires userRepo.db.Valid()
    modifies userRepo.db
    ensures userRepo.db.Valid()
    ensures lang == LanguageOf(data)
    ensures lang.None? ==> unchanged(userRepo.db)
    ensures lang.Some? ==>
      && userRepo.db.OnlyChanged({Users}) && userRepo.db.users.Keys == old(userRepo.db.users.Keys)
      && (forall k :: k in userRepo.db.users && k != user.telegramId ==> userRepo.db.users[k] == old(userRepo.db.users[k]))
      && (user.telegramId in userRepo.db.users ==>
            userRepo.db.users[user.telegramId] == old(userRepo.db.users[user.telegramId]).(language := lang))
  {
    lang := LanguageOf(data);
    if lang.Some? {
      userRepo.Update(user, None, lang);
    }
  }

  /** How `md_answer` ends: the row sent as `{id}.md`, the no-row warning, or an exception. */
  datatype MdOutcome = MdDocument(fileName: string, content: string) | NoRow | MdRaised

  /**
   * `md_answer`: the message row named by the callback data is sent back as
   * a Markdown file named after its id. The row is looked up by id alone,
   * whichever user it belongs to.
   */
  method MdAnswer(userRepo: UserRepository, data: string) returns (out: MdOutcome)
    ensures TrailingId(data).None? <==> out == MdRaised
    ensures out == NoRow <==> TrailingId(data).Some? && forall m :: m in userRepo.db.messages ==> m.id != TrailingId(data).value
    ensures out.MdDocument? ==>
      exists m :: m in userRepo.db.messages && m.id == TrailingId(data).value
        && out == MdDocument(IntToString(m.id) + ".md", m.content)
  {
    var rowId := TrailingId(data);
    if rowId.None? {
      return MdRaised;
    }
    var row := userRepo.GetRowForMd(rowId.value);
    if row.None? {
      return NoRow;
    }
    return MdDocument(IntToString(row.value.id) + ".md", row.value.content);
  }
}
