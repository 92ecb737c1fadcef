/**
 * The texts the bot sends back: the fixed usage hint, an answer from the
 * model with the `@bot ` marker in front and cut to a maximum length, and the
 * report of a failed call.
 */
module Reply {
  import opened Text

  /** Every message the bot sends starts with this marker. */
  const Marker: string := "@bot "

  /** The longest marked answer sent whole. */
  const MaxLength: nat := 1500

  /** Appended to an answer that was cut to `MaxLength` characters. */
  const CutNotice: string := "...\n\n(Respuesta cortada por longitud)"

  /** WhatsApp's limit on the length of one message, which `MaxLength` is chosen to stay under. */
  const WhatsAppLimit: nat := 1600

  /** Sent when the command carries no question. */
  const UsageHint: string := Marker + "Por favor, escribe algo después de !bot. Ejemplo: !bot ¿Qué es Python?"

  /** Put in front of the text of the exception a failed call raised. */
  const ErrorPrefix: string := "@bot ❌ Error: "

  /** The message that carries an answer of the model: marked, and cut when too long. */
  function FormatAnswer(text: string): (r: string)
    ensures StartsWith(r, Marker)
    ensures |r| <= MaxLength + |CutNotice|
  {
    var full := Marker + text;
    if |full| > MaxLength then full[..MaxLength] + CutNotice else full
  }

  /** An answer that fits is sent unchanged behind the marker, and can be read back from the message. */
  lemma FormatAnswerFits(text: string)
    requires |Marker + text| <= MaxLength
    ensures FormatAnswer(text) == Marker + text
    ensures FormatAnswer(text)[|Marker|..] == text
  {
  }

  /**
   * An answer that does not fit keeps its first `MaxLength - |Marker|`
   * characters, is followed by the cut notice, and the message is exactly
   * `MaxLength + |CutNotice|` characters long.
   */
  lemma FormatAnswerCuts(text: string)
    requires |Marker + text| > MaxLength
    ensures FormatAnswer(text) == (Marker + text)[..MaxLength] + CutNotice
    ensures |FormatAnswer(text)| == MaxLength + |CutNotice|
    ensures FormatAnswer(text)[|Marker|..MaxLength] == text[..MaxLength - |Marker|]
    ensures FormatAnswer(text)[MaxLength..] == CutNotice
  {
    var full := Marker + text;
    assert full[..MaxLength][|Marker|..] == text[..MaxLength - |Marker|];
  }

  /** Whatever the answer, the message never says anything the answer did not: it begins with a prefix of the marked answer. */
  lemma FormatAnswerFaithful(text: string, k: nat)
    requires k <= |Marker + text| && k <= MaxLength
    ensures k <= |FormatAnswer(text)| && FormatAnswer(text)[..k] == (Marker + text)[..k]
  {
  }

  /** A message carrying an answer always fits in one WhatsApp message. */
  lemma FormatAnswerWithinWhatsAppLimit(text: string)
    ensures |FormatAnswer(text)| <= WhatsAppLimit
  {
    assert |CutNotice| == 37;
  }

  /** The message reporting a failed call: marked, and the exception text can be read back from it. */
  function ErrorReply(message: string): (r: string)
    ensures StartsWith(r, Marker)
    ensures |r| == |ErrorPrefix| + |message| && r[..|ErrorPrefix|] == ErrorPrefix
    ensures r[|ErrorPrefix|..] == message
  {
    ErrorPrefix + message
  }

  /** The usage hint is marked like every other message. */
  lemma UsageHintMarked()
    ensures StartsWith(UsageHint, Marker)
  {
  }
}
