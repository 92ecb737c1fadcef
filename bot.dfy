/**
 * The `/webhook` handler: the `!bot` command gate, the question it carries,
 * the per-sender conversation store it keeps for the life of the process,
 * and the one message (or none) it answers with.
 *
 * The HTTP form fields `Body` and `From` are plain string inputs. The two
 * calls into the model's library are inputs too: `started` is what starting a
 * new chat gives, `answer` is what sending the question gives; each is a
 * value or the text of the exception it raised. A conversation handle is an
 * abstract type: what the library keeps inside it is not part of this model.
 */
module Bot {
  import opened Wrappers
  import opened Text
  import opened Reply

  /** The command that makes the bot answer. */
  const Command: string := "!bot"

  /** A conversation with the model, as the library hands it out. */
  type Handle(==)

  /** What the gate makes of an inbound body. */
  datatype Request =
    | Ignored                  // the stripped body does not start with the command
    | NoQuestion               // the command carries nothing but whitespace
    | Question(text: string)   // the stripped text after the command

  /** The one call made to the model: the conversation used and the question sent. */
  datatype Call = Call(handle: Handle, question: string)

  /** What one request leaves behind: the store, the message sent back if any, the call made if any. */
  datatype Step = Step(sessions: map<string, Handle>, reply: Option<string>, call: Option<Call>)

  /** The command gate and the question it carries. */
  function Classify(body: string): (c: Request)
    ensures c.Question? ==> c.text != [] && !IsWs(c.text[0]) && !IsWs(c.text[|c.text| - 1])
  {
    var message := Strip(body);
    if !StartsWith(message, Command) then Ignored
    else
      var question := Strip(message[4..]);
      if question == [] then NoQuestion else Question(question)
  }

  /** The body is ignored exactly when its stripped form does not start with the command. */
  lemma ClassifyIgnoredIff(body: string)
    ensures Classify(body) == Ignored <==> !StartsWith(Strip(body), Command)
  {
  }

  /** The command carries no question exactly when all that follows it is whitespace. */
  lemma ClassifyNoQuestionIff(body: string)
    ensures Classify(body) == NoQuestion <==>
              StartsWith(Strip(body), Command) &&
              forall k :: 4 <= k < |Strip(body)| ==> IsWs(Strip(body)[k])
  {
    var message := Strip(body);
    if StartsWith(message, Command) {
      var rest := message[4..];
      StripEmptyIff(rest);
      assert forall k :: 0 <= k < |rest| ==> rest[k] == message[k + 4];
      assert forall k :: 4 <= k < |message| ==> message[k] == rest[k - 4];
    }
  }

  /** A question is already stripped: stripping it again changes nothing. */
  lemma QuestionIsStripped(body: string)
    requires Classify(body).Question?
    ensures Strip(Classify(body).text) == Classify(body).text
  {
    var message := Strip(body);
    StripIdempotent(message[4..]);
  }

  /**
   * The question is the text after the first 4 characters of the stripped
   * body, with the whitespace around it removed: it is a slice of that text
   * with only whitespace on either side.
   */
  lemma QuestionIsRest(body: string)
    requires Classify(body).Question?
    ensures var m := Strip(body);
            exists i, j :: && 4 <= i <= j <= |m|
                           && m[i..j] == Classify(body).text
                           && (forall k :: 4 <= k < i ==> IsWs(m[k]))
                           && (forall k :: j <= k < |m| ==> IsWs(m[k]))
  {
    var m := Strip(body);
    var i, j :| IsStripOf(m[4..], i, j) && Strip(m[4..]) == m[4..][i..j];
    StripOfRest(m, i, j);
    assert m[4 + i..4 + j] == Classify(body).text;
  }

  /** A slice that strips `m[4..]` sits in `m` four places further on, with only whitespace around it. */
  lemma StripOfRest(m: string, i: int, j: int)
    requires |m| >= 4 && IsStripOf(m[4..], i, j)
    ensures 4 <= 4 + i <= 4 + j <= |m| && m[4 + i..4 + j] == m[4..][i..j]
    ensures forall k :: 4 <= k < 4 + i ==> IsWs(m[k])
    ensures forall k :: 4 + j <= k < |m| ==> IsWs(m[k])
  {
    var rest := m[4..];
    forall k | 4 <= k < |m| ensures m[k] == rest[k - 4] { }
  }

  /** A command carries no question exactly when the stripped body is the command alone. */
  lemma NoQuestionIsBareCommand(body: string)
    ensures Classify(body) == NoQuestion <==> Strip(body) == Command
  {
    var m := Strip(body);
    ClassifyNoQuestionIff(body);
    if Classify(body) == NoQuestion {
      assert m != [] && !IsWs(m[|m| - 1]);
      assert |m| == 4;
      assert m == m[..4];
    }
  }

  /** No space is needed after the command: `!botfoo` asks `foo`. */
  lemma ClassifyNeedsNoSpace()
    ensures Classify("!botfoo") == Question("foo")
  {
    var body := "!botfoo";
    StripCharacterised(body, 0, 7);
    assert Strip(body) == body;
    assert StartsWith(body, Command);
    assert body[4..] == "foo";
    StripCharacterised("foo", 0, 3);
    assert Strip("foo") == "foo";
  }

  /** The whitespace after the command is not part of the question. */
  lemma ClassifyStripsQuestion()
    ensures Classify("!bot 2+2?") == Question("2+2?")
  {
    var body := "!bot 2+2?";
    StripCharacterised(body, 0, 9);
    assert Strip(body) == body;
    assert StartsWith(body, Command);
    assert body[4..] == " 2+2?";
    StripCharacterised(" 2+2?", 1, 5);
    assert Strip(" 2+2?") == "2+2?";
  }

  /** The command alone carries no question. */
  lemma ClassifyBareCommand()
    ensures Classify("!bot") == NoQuestion
  {
    StripCharacterised("!bot", 0, 4);
    assert Strip("!bot") == "!bot";
    assert StartsWith("!bot", Command);
    assert "!bot"[4..] == "";
    StripCharacterised("", 0, 0);
  }

  /** Whitespace around the bare command does not make a question. */
  lemma ClassifyPaddedCommand()
    ensures Classify("  !bot   ") == NoQuestion
  {
    var padded := "  !bot   ";
    StripCharacterised(padded, 2, 6);
    assert padded[2..6] == "!bot";
    assert Strip(padded) == "!bot";
    ClassifyBareCommand();
  }

  /** The command must open the message, in lower case. */
  lemma ClassifyIgnores()
    ensures Classify("hola !bot") == Ignored
    ensures Classify("!BOT hola") == Ignored
  {
    StripCharacterised("hola !bot", 0, 9);
    assert Strip("hola !bot") == "hola !bot";
    assert "hola !bot"[..4][0] != Command[0];
    StripCharacterised("!BOT hola", 0, 9);
    assert Strip("!BOT hola") == "!BOT hola";
    assert "!BOT hola"[..4][1] != Command[1];
  }

  /**
   * One request, from its body and sender, given the store before it and
   * what the two library calls would give. A new conversation is started
   * only for a sender without one; if starting it fails, nothing is stored
   * and the failure is reported. Once stored, the entry stays even when the
   * question then fails.
   */
  function Respond(sessions: map<string, Handle>, body: string, sender: string,
                   started: CallResult<Handle>, answer: CallResult<string>): (s: Step)
    ensures sessions.Keys <= s.sessions.Keys <= sessions.Keys + {sender}
    ensures s.reply.Some? ==> StartsWith(s.reply.value, Marker)
    ensures s.call.Some? ==> s.reply.Some?
  {
    match Classify(body)
    case Ignored => Step(sessions, None, None)
    case NoQuestion => Step(sessions, Some(UsageHint), None)
    case Question(question) =>
      if sender !in sessions && started.Failure? then
        Step(sessions, Some(ErrorReply(started.message)), None)
      else
        var sessions' := if sender in sessions then sessions else sessions[sender := started.value];
        var reply := match answer
          case Success(text) => FormatAnswer(text)
          case Failure(message) => ErrorReply(message);
        Step(sessions', Some(reply), Some(Call(sessions'[sender], question)))
  }

  /** Without the command nothing is sent, nothing is stored and the model is not called. */
  lemma IgnoredChangesNothing(sessions: map<string, Handle>, body: string, sender: string,
                              started: CallResult<Handle>, answer: CallResult<string>)
    requires !StartsWith(Strip(body), Command)
    ensures Respond(sessions, body, sender, started, answer) == Step(sessions, None, None)
  {
  }

  /** A command without a question gets the usage hint, stores nothing and does not call the model. */
  lemma NoQuestionGetsUsageHint(sessions: map<string, Handle>, body: string, sender: string,
                                started: CallResult<Handle>, answer: CallResult<string>)
    requires StartsWith(Strip(body), Command)
    requires forall k :: 4 <= k < |Strip(body)| ==> IsWs(Strip(body)[k])
    ensures Respond(sessions, body, sender, started, answer) == Step(sessions, Some(UsageHint), None)
  {
    ClassifyNoQuestionIff(body);
  }

  /**
   * For a question, the sender ends up with a conversation whenever one
   * existed or could be started; an existing one is reused, not replaced,
   * and the question goes to the model on that conversation.
   */
  lemma QuestionUsesSession(sessions: map<string, Handle>, body: string, sender: string,
                            started: CallResult<Handle>, answer: CallResult<string>)
    requires Classify(body).Question?
    requires sender in sessions || started.Success?
    ensures var s := Respond(sessions, body, sender, started, answer);
            && sender in s.sessions
            && s.sessions == (if sender in sessions then sessions else sessions[sender := started.value])
            && s.call == Some(Call(s.sessions[sender], Classify(body).text))
  {
  }

  /**
   * When starting a conversation for a new sender fails, nothing is stored,
   * the model is not called and the failure is reported; the sender's next
   * question starts a conversation again.
   */
  lemma FailedStartStoresNothing(sessions: map<string, Handle>, body: string, sender: string,
                                 message: string, answer: CallResult<string>)
    requires Classify(body).Question?
    requires sender !in sessions
    ensures Respond(sessions, body, sender, Failure(message), answer) ==
              Step(sessions, Some(ErrorReply(message)), None)
  {
  }

  /** The model is called exactly for a question whose sender has, or can be given, a conversation. */
  lemma CallIff(sessions: map<string, Handle>, body: string, sender: string,
                started: CallResult<Handle>, answer: CallResult<string>)
    ensures Respond(sessions, body, sender, started, answer).call.Some? <==>
              Classify(body).Question? && (sender in sessions || started.Success?)
  {
  }

  /** The store only grows: no key disappears, no stored conversation changes, at most the sender is added. */
  lemma StoreOnlyGrows(sessions: map<string, Handle>, body: string, sender: string,
                       started: CallResult<Handle>, answer: CallResult<string>)
    ensures var s := Respond(sessions, body, sender, started, answer);
            && sessions.Keys <= s.sessions.Keys
            && s.sessions.Keys - sessions.Keys <= {sender}
            && forall k :: k in sessions ==> s.sessions[k] == sessions[k]
  {
  }

  /** The message sent for a question is the formatted answer, or the report of the failure that stopped it. */
  lemma QuestionReply(sessions: map<string, Handle>, body: string, sender: string,
                      started: CallResult<Handle>, answer: CallResult<string>)
    requires Classify(body).Question?
    ensures var s := Respond(sessions, body, sender, started, answer);
            s.reply == Some(
              if sender !in sessions && started.Failure? then ErrorPrefix + started.message
              else if answer.Failure? then ErrorPrefix + answer.message
              else FormatAnswer(answer.value))
  {
  }

  /** A question whose call fails is still answered, with exactly the marked report of the failure. */
  lemma FailedCallReported(sessions: map<string, Handle>, body: string, sender: string,
                           started: CallResult<Handle>, message: string)
    requires Classify(body).Question?
    requires sender in sessions || started.Success?
    ensures Respond(sessions, body, sender, started, Failure(message)).reply ==
              Some("@bot ❌ Error: " + message)
  {
  }

  /** Two questions in a row from one sender go to the model on the same conversation. */
  lemma ConsecutiveQuestionsShareConversation(
    sessions: map<string, Handle>, sender: string,
    body1: string, started1: CallResult<Handle>, answer1: CallResult<string>,
    body2: string, started2: CallResult<Handle>, answer2: CallResult<string>)
    requires Classify(body1).Question? && Classify(body2).Question?
    requires sender in sessions || started1.Success?
    ensures var s1 := Respond(sessions, body1, sender, started1, answer1);
            var s2 := Respond(s1.sessions, body2, sender, started2, answer2);
            && s1.call.Some? && s2.call.Some?
            && s2.call.value.handle == s1.call.value.handle
            && s2.sessions == s1.sessions
  {
  }

  /** No two senders share a conversation. */
  ghost predicate Private(sessions: map<string, Handle>) {
    forall a, b :: a in sessions && b in sessions && a != b ==> sessions[a] != sessions[b]
  }

  /** A newly started conversation is a new object, so each sender's conversation stays their own. */
  lemma SessionsStayPrivate(sessions: map<string, Handle>, body: string, sender: string,
                            started: CallResult<Handle>, answer: CallResult<string>)
    requires Private(sessions)
    requires started.Success? ==> started.value !in sessions.Values
    ensures Private(Respond(sessions, body, sender, started, answer).sessions)
  {
    var s := Respond(sessions, body, sender, started, answer);
    if sender !in sessions && s.sessions != sessions {
      forall a, b | a in s.sessions && b in s.sessions && a != b
        ensures s.sessions[a] != s.sessions[b]
      {
        if a == sender {
          assert sessions[b] in sessions.Values;
        } else if b == sender {
          assert sessions[a] in sessions.Values;
        }
      }
    }
  }

  /** The process-wide store of conversations, one per sender, kept until the process ends. */
  class Conversations {
    var sessions: map<string, Handle>

    /** The store is empty when the process starts. */
    constructor ()
      ensures sessions == map[]
    {
      sessions := map[];
    }

    /**
     * Handles one POST to `/webhook`, updating the store in place. It takes
     * the same steps as `Respond`, in the same order, and its postcondition
     * says that it ends where `Respond` does.
     */
    method Webhook(body: string, sender: string, started: CallResult<Handle>, answer: CallResult<string>)
      returns (reply: Option<string>, call: Option<Call>)
      modifies this
      ensures Step(sessions, reply, call) == Respond(old(sessions), body, sender, started, answer)
    {
      reply, call := None, None;
      match Classify(body) {
        case Ignored =>
          return;
        case NoQuestion =>
          reply := Some(UsageHint);
          return;
        case Question(question) =>
          if sender !in sessions {
            match started
            case Failure(e) =>
              reply := Some(ErrorReply(e));
              return;
            case Success(handle) =>
              sessions := sessions[sender := handle];
          }
          var chat := sessions[sender];
          call := Some(Call(chat, question));
          match answer
          case Success(text) =>
            reply := Some(FormatAnswer(text));
          case Failure(e) =>
            reply := Some(ErrorReply(e));
      }
    }
  }
}
