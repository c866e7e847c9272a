/**
 * translation/translator.go: the supported languages, the mapping of a command word to a
 * language, the per-language prefix and the part of TranslateText that does not touch the
 * network. The translation service is an oracle: its reply is a parameter.
 */
module Translation {
  import opened Wrappers
  import opened Text

  /** Language codes are strings; these are the three the bot knows. */
  type Language = string

  const English: Language := "en"
  const Hindi: Language := "hi"
  const Tamil: Language := "ta"

  /** Texts longer than this are cut before they are sent for translation. */
  const MaxTranslateLength := 500

  /** The prefix FormatLanguageSpecificText puts before Tamil and Hindi text: the flag emoji
      as the source file spells it, which is the UTF-8 bytes of the flag read back as
      Windows-1252 characters. */
  const FlagPrefix := "ðŸ‡®ðŸ‡³ "

  // ---------------------------------------------------------------------------------------
  // GetLanguageFromCommand
  // ---------------------------------------------------------------------------------------

  /** GetLanguageFromCommand: after lower-casing, a command mentioning "tamil" or "ta" is
      Tamil, else one mentioning "hindi" or "hi" is Hindi, else English. */
  function GetLanguageFromCommand(command: string): (lang: Language)
    ensures lang == English || lang == Hindi || lang == Tamil
  {
    var c := ToLower(command);
    if Contains(c, "tamil") || Contains(c, "ta") then Tamil
    else if Contains(c, "hindi") || Contains(c, "hi") then Hindi
    else English
  }

  /** An occurrence of a word is also an occurrence of each of its prefixes. */
  lemma ContainsPrefixOfWord(s: string, word: string, n: nat)
    requires n <= |word| && Contains(s, word)
    ensures Contains(s, word[..n])
  {
    var j := IndexOf(s, word).value;
    assert s[j..j + n] == s[j..j + |word|][..n];
    ContainsIff(s, word[..n], j);
  }

  /** The long names are redundant: "tamil" contains "ta" and "hindi" contains "hi". So the
      command is Tamil exactly when its lower-cased form contains "ta", Hindi exactly when it
      contains "hi" but not "ta" (Tamil wins when both occur), and English otherwise. */
  lemma LanguageFromCommandCases(command: string)
    ensures var c := ToLower(command);
      && (GetLanguageFromCommand(command) == Tamil <==> Contains(c, "ta"))
      && (GetLanguageFromCommand(command) == Hindi <==> !Contains(c, "ta") && Contains(c, "hi"))
      && (GetLanguageFromCommand(command) == English <==> !Contains(c, "ta") && !Contains(c, "hi"))
  {
    var c := ToLower(command);
    if Contains(c, "tamil") {
      ContainsPrefixOfWord(c, "tamil", 2);
      assert "tamil"[..2] == "ta";
    }
    if Contains(c, "hindi") {
      ContainsPrefixOfWord(c, "hindi", 2);
      assert "hindi"[..2] == "hi";
    }
  }

  /** Upper case in the command does not matter. */
  lemma LanguageFromCommandIgnoresCase(command: string)
    ensures GetLanguageFromCommand(ToLower(command)) == GetLanguageFromCommand(command)
  {
    ToLowerIdempotent(command);
  }

  // ---------------------------------------------------------------------------------------
  // FormatLanguageSpecificText
  // ---------------------------------------------------------------------------------------

  /** FormatLanguageSpecificText: the flag prefix for Tamil and Hindi, the text itself for any
      other language. The text is always a suffix of the result. */
  function FormatLanguageSpecificText(text: string, lang: Language): (r: string)
    ensures lang == Tamil || lang == Hindi ==> r == FlagPrefix + text
    ensures lang != Tamil && lang != Hindi ==> r == text
    ensures |r| >= |text| && r[|r| - |text|..] == text
  {
    if lang == Tamil || lang == Hindi then FlagPrefix + text else text
  }

  // ---------------------------------------------------------------------------------------
  // TranslateText
  // ---------------------------------------------------------------------------------------

  /** The decoded JSON body of the translation service. */
  datatype ServiceResponse = ServiceResponse(translatedText: string, responseStatus: int)

  /** What the HTTP exchange produced: a transport failure (building or sending the request),
      or a reply with its HTTP status and its body, absent when it does not decode. */
  datatype ServiceReply = TransportFailure | HttpReply(statusCode: int, body: Option<ServiceResponse>)

  /** The errors TranslateText can return. */
  datatype TranslateError =
    | RequestFailed
    | HttpError(statusCode: int)
    | DecodeFailed
    | ServiceFailed(responseStatus: int)
    | EmptyTranslation

  /** TranslateText's two results: a text and an optional error. */
  datatype Translated = Translated(text: string, err: Option<TranslateError>)

  /** The text that is sent for translation: cut to its first 500 characters followed by
      "..." when it is longer than 500. */
  function Truncate(text: string): (r: string)
    ensures |text| <= MaxTranslateLength ==> r == text
    ensures |text| > MaxTranslateLength ==>
      |r| == MaxTranslateLength + 3 && r[..MaxTranslateLength] == text[..MaxTranslateLength] && r[MaxTranslateLength..] == "..."
  {
    if |text| > MaxTranslateLength then text[..MaxTranslateLength] + "..." else text
  }

  /** Cutting an already cut text changes nothing. */
  lemma TruncateIdempotent(text: string)
    ensures Truncate(Truncate(text)) == Truncate(text)
  {
    if |text| > MaxTranslateLength {
      var t := Truncate(text);
      assert t[..MaxTranslateLength] + "..." == t;
    }
  }

  /** TranslateText with the service's reply as a parameter. English is returned as it came,
      without cutting. Otherwise every failure returns the cut input and an error, and a
      success returns the service's non-empty translation. */
  function TranslateText(text: string, target: Language, reply: ServiceReply): (r: Translated)
    ensures target == English ==> r == Translated(text, None)
    ensures target != English && r.err.Some? ==> r.text == Truncate(text)
    ensures r.err.None? && target != English ==>
      r.text != "" && reply.HttpReply? && reply.statusCode == 200 && reply.body == Some(ServiceResponse(r.text, 200))
    ensures (target != English && reply.HttpReply? && reply.statusCode == 200 && reply.body.Some?
             && reply.body.value.responseStatus == 200 && reply.body.value.translatedText != "") ==>
      r == Translated(reply.body.value.translatedText, None)
  {
    if target == English then Translated(text, None)
    else
      var sent := Truncate(text);
      match reply
      case TransportFailure => Translated(sent, Some(RequestFailed))
      case HttpReply(statusCode, body) =>
        if statusCode != 200 then Translated(sent, Some(HttpError(statusCode)))
        else if body.None? then Translated(sent, Some(DecodeFailed))
        else if body.value.responseStatus != 200 then Translated(sent, Some(ServiceFailed(body.value.responseStatus)))
        else if body.value.translatedText == "" then Translated(sent, Some(EmptyTranslation))
        else Translated(body.value.translatedText, None)
  }

  /** A failed translation never returns more than 503 characters, and a non-English text of at
      most 500 characters comes back unchanged when the translation fails. */
  lemma TranslateFallbackBounded(text: string, target: Language, reply: ServiceReply)
    requires target != English && TranslateText(text, target, reply).err.Some?
    ensures |TranslateText(text, target, reply).text| <= MaxTranslateLength + 3
    ensures |text| <= MaxTranslateLength ==> TranslateText(text, target, reply).text == text
  {
  }
}
