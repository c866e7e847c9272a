/**
 * The language part of the message handler (handlers/language_handler.go, repeated verbatim in
 * handlers/message_handlers.go): the `lang_*` callbacks that set a user's language, and the
 * keyboard that offers every language except the one the chat already uses.
 */
module LanguageHandler {
  import opened Wrappers
  import opened Translation
  import opened LanguageStore

  const UnknownSelectionReply := "Unknown language selection"
  const SaveErrorReply := "Error saving language preference"

  /** A recognised selection: the language and the confirmation sent back. */
  datatype Selection = Selection(language: Language, confirmation: string)

  /** The switch of HandleLanguageSelection: exactly "lang_en", "lang_hi" and "lang_ta" select
      English, Hindi and Tamil, each with its own confirmation; anything else selects nothing. */
  function LanguageSelection(data: string): (sel: Option<Selection>)
    ensures sel.Some? <==> data in {"lang_en", "lang_hi", "lang_ta"}
    ensures sel.Some? ==> data == "lang_" + sel.value.language
    ensures sel.Some? ==> sel.value.language in SupportedLanguages()
    ensures data == "lang_en" ==> sel.value.confirmation == "✅ Language set to English!"
    ensures data == "lang_hi" ==> sel.value.confirmation == "✅ भाषा हिंदी में सेट की गई!"
    ensures data == "lang_ta" ==> sel.value.confirmation == "✅ மொழி தமிழில் அமைக்கப்பட்டது!"
  {
    match data
    case "lang_en" => Some(Selection(English, "✅ Language set to English!"))
    case "lang_hi" => Some(Selection(Hindi, "✅ भाषा हिंदी में सेट की गई!"))
    case "lang_ta" => Some(Selection(Tamil, "✅ மொழி தமிழில் அமைக்கப்பட்டது!"))
    case _ => None
  }

  /** HandleLanguageSelection: an unknown payload is refused without touching the store;
      otherwise the user's language is set (the change stays even if the save fails) and the
      reply is the confirmation, or the save error. */
  method HandleLanguageSelection(manager: LanguageManager, data: string, userID: int, writeOk: bool)
    returns (reply: string)
    modifies manager
    ensures LanguageSelection(data).None? ==>
      reply == UnknownSelectionReply && manager.preferences == old(manager.preferences) && manager.file == old(manager.file)
    ensures LanguageSelection(data).Some? ==>
      && manager.preferences == old(manager.preferences)[userID := LanguageSelection(data).value.language]
      && reply == (if writeOk then LanguageSelection(data).value.confirmation else SaveErrorReply)
      && (writeOk ==> manager.file.Stored? && Represents(manager.file.records, manager.preferences))
      && (!writeOk ==> manager.file == old(manager.file))
  {
    var selection := LanguageSelection(data);
    if selection.None? {
      return UnknownSelectionReply;
    }
    var failed := manager.SetUserLanguage(userID, selection.value.language, writeOk);
    if failed {
      return SaveErrorReply;
    }
    reply := selection.value.confirmation;
  }

  // ---------------------------------------------------------------------------------------
  // The language keyboard
  // ---------------------------------------------------------------------------------------

  /** One keyboard button: its text and its callback payload. */
  datatype Button = Button(text: string, payload: string)

  /** The order in which languages are offered. */
  const LanguageOrder: seq<Language> := [English, Hindi, Tamil]

  /** The button that selects a supported language. */
  function ButtonFor(lang: Language): (b: Button)
    requires lang in SupportedLanguages()
    ensures b.payload == "lang_" + lang
    ensures b.text == SupportedLanguages()[lang]
  {
    Button(SupportedLanguages()[lang], "lang_" + lang)
  }

  /** The languages the keyboard offers: those of LanguageOrder other than the current one, in
      that order. Every language but the current one is offered, so at least two always are. */
  function OfferedLanguages(current: Language): (offered: seq<Language>)
    ensures forall lang :: lang in offered <==> lang in LanguageOrder && lang != current
    ensures |offered| >= 2
    ensures current in LanguageOrder ==> |offered| == 2
    ensures forall i, j :: 0 <= i < j < |offered| ==> Rank(offered[i]) < Rank(offered[j])
  {
    (if current != English then [English] else [])
    + (if current != Hindi then [Hindi] else [])
    + (if current != Tamil then [Tamil] else [])
  }

  /** A language's position in LanguageOrder. */
  function Rank(lang: Language): nat {
    if lang == English then 0 else if lang == Hindi then 1 else 2
  }

  /** The buttons of SendLanguageKeyboard, appended one condition at a time for the language the
      chat currently uses. There are always at least two, so the "Current language" message for
      an empty keyboard is never sent. */
  method LanguageButtons(current: Language) returns (buttons: seq<Button>)
    ensures |buttons| == |OfferedLanguages(current)| >= 2
    ensures forall i :: 0 <= i < |buttons| ==> buttons[i] == ButtonFor(OfferedLanguages(current)[i])
  {
    buttons := [];
    if current != English {
      buttons := buttons + [ButtonFor(English)];
    }
    if current != Hindi {
      buttons := buttons + [ButtonFor(Hindi)];
    }
    if current != Tamil {
      buttons := buttons + [ButtonFor(Tamil)];
    }
  }

  /** SendLanguageKeyboard: the buttons for the language stored under the chat's id. */
  method SendLanguageKeyboard(manager: LanguageManager, chatID: int) returns (buttons: seq<Button>)
    ensures |buttons| == |OfferedLanguages(LanguageOf(manager.preferences, chatID))|
    ensures forall i :: 0 <= i < |buttons| ==>
      buttons[i] == ButtonFor(OfferedLanguages(LanguageOf(manager.preferences, chatID))[i])
  {
    var current := manager.GetUserLanguage(chatID);
    buttons := LanguageButtons(current);
  }

  /** Every button on the keyboard is accepted by HandleLanguageSelection and switches to a
      language other than the current one. */
  lemma OfferedButtonsSwitchLanguage(current: Language, i: nat)
    requires i < |OfferedLanguages(current)|
    ensures var sel := LanguageSelection(ButtonFor(OfferedLanguages(current)[i]).payload);
      sel.Some? && sel.value.language == OfferedLanguages(current)[i] && sel.value.language != current
  {
    var lang := OfferedLanguages(current)[i];
    assert lang in OfferedLanguages(current);
    assert lang in LanguageOrder;
    assert "lang_" + English == "lang_en" && "lang_" + Hindi == "lang_hi" && "lang_" + Tamil == "lang_ta";
  }
}
