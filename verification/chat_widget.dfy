/** The chat widget's session state in script.js: the counters and flags,
    the bounded conversation context, the lock on the input and send
    controls, the lead-capture form and the list of entries shown in the
    message pane. Each event handler is a method of `ChatSession`; the
    network reply and the 500 ms form timer are made explicit (the reply as
    a parameter, the timer as a count of scheduled forms). */
module ChatWidget {
  import opened Strings
  import opened Formatter

  datatype Role = User | Bot

  /** One `{ role, content }` record of `conversationContext`. */
  datatype Turn = Turn(role: Role, content: string)

  /** Text on a lead form's submit button: whatever the template says, then
      "Sending..." while the submit is in flight, "Send Details" after a failure. */
  datatype ButtonLabel = AsTemplated | Sending | SendDetails

  /** What the message pane holds: a message bubble for a turn, whose content
      is `Render(turn.role, turn.content)`, or a lead form card with the state
      of its submit button. */
  datatype Entry =
    | Bubble(turn: Turn)
    | LeadCard(buttonDisabled: bool, caption: ButtonLabel)

  /** How the `/api/chat` request ended: a JSON body whose `reply` is a
      string; a response that is not ok; or an exception, which covers a
      rejected `fetch`, a body that is not JSON and a `reply` that is not a
      string (`formatMessage` then throws inside the `try`). */
  datatype ReplyOutcome = Replied(reply: string) | NotOk | Failed

  const ContextCapacity: nat := 6
  const ThanksText := "Thank you! How can I help you today?"
  const NotOkText := "Sorry, something went wrong. Please try again."
  const FailedText := "Unable to connect to the server. Make sure the server is running."
  /** The input's placeholder: a request to fill in the form while the chat
      is locked, an invitation to ask once it is open. */
  const LockedPlaceholder := "Please complete the form above..."
  const OpenPlaceholder := "Type your question..."

  /** The text of the bot message that answers a request. */
  function ReplyText(outcome: ReplyOutcome): string {
    match outcome
    case Replied(r) => r
    case NotOk => NotOkText
    case Failed => FailedText
  }

  /** `addMessage`'s content: bot text goes through the formatter, user text
      is wrapped in a paragraph as it is. */
  function Render(role: Role, text: string): string {
    if role == Bot then FormatMessage(text) else "<p>" + text + "</p>"
  }

  /** A bot bubble is the formatted text, on one line; a user bubble is the
      text itself between `<p>` and `</p>`, with no formatting applied. */
  lemma RenderByRole(role: Role, text: string)
    ensures role == Bot ==> Render(role, text) == FormatMessage(text) && '\n' !in Render(role, text)
    ensures role == User ==>
      && |Render(role, text)| == |text| + 7 && Render(role, text)[..3] == "<p>"
      && Render(role, text)[3..|text| + 3] == text && Render(role, text)[|text| + 3..] == "</p>"
  {
  }

  /** Push `t`, then drop the oldest entry if there are more than six. */
  function Remember(context: seq<Turn>, t: Turn): seq<Turn> {
    var pushed := context + [t];
    if |pushed| > ContextCapacity then pushed[1..] else pushed
  }

  /** The newest turn is last; exactly the oldest turn is dropped, and only
      when the window was full; a window of at most six stays that way. */
  lemma RememberNewestLast(context: seq<Turn>, t: Turn)
    ensures var r := Remember(context, t);
      && r != [] && r[|r| - 1] == t
      && (|context| < ContextCapacity ==> r == context + [t])
      && (|context| >= ContextCapacity ==> r == context[1..] + [t])
      && (|context| <= ContextCapacity ==> |r| <= ContextCapacity)
  {
  }

  /** The context is always the last six turns of everything ever added:
      remembering a turn on the window of a log gives the window of the
      longer log. */
  lemma RememberKeepsWindow(log: seq<Turn>, t: Turn)
    ensures Remember(LastN(log, ContextCapacity), t) == LastN(log + [t], ContextCapacity)
  {
    var w := LastN(log, ContextCapacity);
    var longer := log + [t];
    if |log| >= ContextCapacity {
      assert w + [t] == longer[|longer| - ContextCapacity - 1..];
    }
  }

  /** The turns of the bubbles in the message pane, in order, without the
      form cards. */
  function Turns(entries: seq<Entry>): seq<Turn>
    decreases |entries|
  {
    if entries == [] then []
    else
      var last := entries[|entries| - 1];
      Turns(entries[..|entries| - 1]) + (if last.Bubble? then [last.turn] else [])
  }

  lemma {:induction false} TurnsAppend(a: seq<Entry>, b: seq<Entry>)
    ensures Turns(a + b) == Turns(a) + Turns(b)
    decreases |b|
  {
    if b == [] {
      assert a + b == a;
    } else {
      var front := b[..|b| - 1];
      assert (a + b)[..|a + b| - 1] == a + front;
      TurnsAppend(a, front);
    }
  }

  /** Replacing a form card by another one, or removing it, leaves the
      bubbles as they were. */
  lemma CardsDoNotCount(entries: seq<Entry>, i: nat, card: Entry)
    requires i < |entries| && entries[i].LeadCard? && card.LeadCard?
    ensures Turns(entries[..i] + entries[i + 1..]) == Turns(entries)
    ensures Turns(entries[i := card]) == Turns(entries)
  {
    var front, back := entries[..i], entries[i + 1..];
    assert entries == front + ([entries[i]] + back);
    assert entries[i := card] == front + ([card] + back);
    TurnsAppend(front, [entries[i]] + back);
    TurnsAppend(front, [card] + back);
    TurnsAppend([entries[i]], back);
    TurnsAppend([card], back);
    TurnsAppend(front, back);
    assert Turns([entries[i]]) == [] && Turns([card]) == [];
  }

  /** A form card appended to the pane adds no turn. */
  lemma CardAppendKeepsTurns(entries: seq<Entry>, card: Entry)
    requires card.LeadCard?
    ensures Turns(entries + [card]) == Turns(entries)
  {
    TurnsAppend(entries, [card]);
    assert Turns([card]) == [];
  }

  /** A form card's button is disabled exactly while it reads "Sending...". */
  predicate CardOk(e: Entry) {
    e.LeadCard? ==> (e.buttonDisabled <==> e.caption == Sending)
  }

  predicate CardsOk(entries: seq<Entry>) {
    forall i :: 0 <= i < |entries| ==> CardOk(entries[i])
  }

  /** Appending consistent entries keeps the pane consistent. */
  lemma CardsOkAppend(a: seq<Entry>, b: seq<Entry>)
    requires CardsOk(a) && CardsOk(b)
    ensures CardsOk(a + b)
  {
    forall i | 0 <= i < |a + b| ensures CardOk((a + b)[i]) {
      if i < |a| { assert (a + b)[i] == a[i]; } else { assert (a + b)[i] == b[i - |a|]; }
    }
  }

  /** Removing an entry, or replacing it by a consistent one, keeps the pane
      consistent. */
  lemma CardsOkEdit(entries: seq<Entry>, i: nat, card: Entry)
    requires CardsOk(entries) && i < |entries| && CardOk(card)
    ensures CardsOk(entries[..i] + entries[i + 1..])
    ensures CardsOk(entries[i := card])
  {
    CardsOkAppend(entries[..i], entries[i + 1..]);
  }

  class ChatSession {
    var messageCount: nat
    var leadFormShown: bool
    var leadCaptured: bool
    var context: seq<Turn>
    var inputDisabled: bool
    var sendDisabled: bool
    var placeholder: string
    var inputValue: string
    var windowHidden: bool
    var badgeHidden: bool
    var chipsShown: bool
    /** Lead forms scheduled by a click on the toggle whose timer has not fired yet. */
    var pendingForms: nat
    /** Lead forms the timer has put in the pane so far. */
    ghost var formsShown: nat
    /** The message pane, top to bottom. */
    var transcript: seq<Entry>

    /** The context window holds the last six turns shown in the pane. */
    ghost predicate ContextValid()
      reads this`context, this`transcript
    {
      context == LastN(Turns(transcript), ContextCapacity)
    }

    /** The input and its placeholder follow the lead flag: locked and empty
        until a lead is captured, open afterwards. */
    ghost predicate LockValid()
      reads this`leadCaptured, this`inputDisabled, this`placeholder, this`inputValue
    {
      && inputDisabled == !leadCaptured
      && placeholder == (if leadCaptured then OpenPlaceholder else LockedPlaceholder)
      && (inputDisabled ==> inputValue == "")
    }

    /** The flag says whether any form has been shown; a form button is
        disabled exactly while it reads "Sending...". */
    ghost predicate FormsValid()
      reads this`leadFormShown, this`formsShown, this`transcript
    {
      && (leadFormShown <==> formsShown > 0)
      && CardsOk(transcript)
    }

    ghost predicate Valid()
      reads this
    {
      ContextValid() && LockValid() && FormsValid()
    }

    /** The context sent with a request never holds more than six turns, and
        they are the newest turns of the pane, oldest first. */
    lemma ContextBounded()
      requires Valid()
      ensures |context| <= ContextCapacity
      ensures context == Turns(transcript)[|Turns(transcript)| - |context|..]
    {
      LastNIsSuffix(Turns(transcript), ContextCapacity);
    }

    /** The page as loaded: the chat locked (script.js:147-150), nothing said,
        no form scheduled. */
    constructor (hidden: bool, chipsPresent: bool)
      ensures Valid()
      ensures messageCount == 0 && !leadFormShown && !leadCaptured && context == []
      ensures inputDisabled && sendDisabled && placeholder == LockedPlaceholder && inputValue == ""
      ensures windowHidden == hidden && !badgeHidden && chipsShown == chipsPresent
      ensures pendingForms == 0 && formsShown == 0 && transcript == []
    {
      messageCount := 0;
      leadFormShown := false;
      leadCaptured := false;
      context := [];
      inputDisabled := true;
      sendDisabled := true;
      placeholder := LockedPlaceholder;
      inputValue := "";
      windowHidden := hidden;
      badgeHidden := false;
      chipsShown := chipsPresent;
      pendingForms := 0;
      formsShown := 0;
      transcript := [];
    }

    /** A click on the chat toggle: flip the window; when it is now open,
        schedule a lead form if none has been shown and no lead was captured,
        and hide the badge. */
    method ToggleChat()
      modifies this`windowHidden, this`pendingForms, this`badgeHidden
      requires Valid()
      ensures Valid()
      ensures windowHidden == !old(windowHidden)
      ensures pendingForms == old(pendingForms) + (if !windowHidden && !leadFormShown && !leadCaptured then 1 else 0)
      ensures leadCaptured ==> pendingForms == old(pendingForms)
      ensures badgeHidden == (old(badgeHidden) || !windowHidden)
    {
      windowHidden := !windowHidden;
      if !windowHidden {
        if !leadFormShown && !leadCaptured {
          pendingForms := pendingForms + 1;
        }
        badgeHidden := true;
      }
    }

    /** A click on the close button. */
    method CloseChat()
      modifies this`windowHidden
      requires Valid()
      ensures Valid()
      ensures windowHidden
    {
      windowHidden := true;
    }

    /** A scheduled form timer fires (`showLeadForm`): the flag is set now,
        not when the timer was scheduled, and the form card is appended with
        its button as the template has it. */
    method ShowLeadForm()
      modifies this`pendingForms, this`leadFormShown, this`formsShown, this`transcript
      requires Valid()
      requires pendingForms > 0
      ensures Valid()
      ensures pendingForms == old(pendingForms) - 1
      ensures leadFormShown && formsShown == old(formsShown) + 1
      ensures transcript == old(transcript) + [LeadCard(false, AsTemplated)]
    {
      pendingForms := pendingForms - 1;
      leadFormShown := true;
      formsShown := formsShown + 1;
      var card := LeadCard(false, AsTemplated);
      CardAppendKeepsTurns(transcript, card);
      CardsOkAppend(transcript, [card]);
      transcript := transcript + [card];
    }

    /** The form card at position `i` is submitted: its button is disabled and
        reads "Sending..." while the mock request is in flight. */
    method SubmitLead(i: nat)
      modifies this`transcript
      requires Valid()
      requires i < |transcript| && transcript[i].LeadCard? && !transcript[i].buttonDisabled
      ensures Valid()
      ensures transcript == old(transcript)[i := LeadCard(true, Sending)]
    {
      CardsDoNotCount(transcript, i, LeadCard(true, Sending));
      CardsOkEdit(transcript, i, LeadCard(true, Sending));
      transcript := transcript[i := LeadCard(true, Sending)];
    }

    /** The submit of the card at position `i` completes: the lead is
        captured, that card is removed, the chat is unlocked
        (`unlockChat`) and the thank-you message is added. */
    method LeadSubmitSucceeded(i: nat)
      modifies this`leadCaptured, this`transcript, this`inputDisabled, this`sendDisabled,
        this`placeholder, this`context
      requires Valid()
      requires i < |transcript| && transcript[i] == LeadCard(true, Sending)
      ensures Valid()
      ensures leadCaptured && !inputDisabled && !sendDisabled && placeholder == OpenPlaceholder
      ensures transcript == old(transcript)[..i] + old(transcript)[i + 1..] + [Bubble(Turn(Bot, ThanksText))]
      ensures context == Remember(old(context), Turn(Bot, ThanksText))
    {
      leadCaptured := true;
      CardsDoNotCount(transcript, i, transcript[i]);
      CardsOkEdit(transcript, i, transcript[i]);
      transcript := transcript[..i] + transcript[i + 1..];
      inputDisabled := false;
      sendDisabled := false;
      placeholder := OpenPlaceholder;
      assert LockValid();
      AddMessage(ThanksText, Bot);
    }

    /** The submit of the card at position `i` fails before the lead is
        recorded: only that card's button changes, back to enabled with
        "Send Details"; every flag stays as it was. */
    method LeadSubmitFailed(i: nat)
      modifies this`transcript
      requires Valid()
      requires i < |transcript| && transcript[i] == LeadCard(true, Sending)
      ensures Valid()
      ensures transcript == old(transcript)[i := LeadCard(false, SendDetails)]
    {
      CardsDoNotCount(transcript, i, LeadCard(false, SendDetails));
      CardsOkEdit(transcript, i, LeadCard(false, SendDetails));
      transcript := transcript[i := LeadCard(false, SendDetails)];
    }

    /** `addMessage(text, role)`: append the bubble and remember the turn in
        the six-entry context, newest last. */
    method AddMessage(text: string, role: Role)
      modifies this`transcript, this`context
      requires ContextValid() && FormsValid()
      ensures ContextValid() && FormsValid()
      ensures transcript == old(transcript) + [Bubble(Turn(role, text))]
      ensures context == Remember(old(context), Turn(role, text))
    {
      var t := Turn(role, text);
      TurnsAppend(transcript, [Bubble(t)]);
      assert Turns([Bubble(t)]) == [t];
      CardsOkAppend(transcript, [Bubble(t)]);
      RememberKeepsWindow(Turns(transcript), t);
      transcript := transcript + [Bubble(t)];
      context := Remember(context, t);
    }

    /** The part of `sendMessage` that runs before the request: hide the
        chips, show the user's bubble, count it, clear the input and disable
        the send button. */
    method BeginSend(message: string)
      modifies this`chipsShown, this`messageCount, this`inputValue, this`sendDisabled,
        this`transcript, this`context
      requires Valid()
      ensures Valid()
      ensures !chipsShown && messageCount == old(messageCount) + 1 && inputValue == "" && sendDisabled
      ensures transcript == old(transcript) + [Bubble(Turn(User, message))]
      ensures context == Remember(old(context), Turn(User, message))
    {
      chipsShown := false;
      AddMessage(message, User);
      assert ContextValid() && FormsValid();
      AwaitReply();
    }

    /** The rest of the request's set-up: count the message, clear the input
        and disable the send button until the reply is in. */
    method AwaitReply()
      modifies this`messageCount, this`inputValue, this`sendDisabled
      requires LockValid()
      ensures LockValid()
      ensures messageCount == old(messageCount) + 1 && inputValue == "" && sendDisabled
    {
      messageCount := messageCount + 1;
      inputValue := "";
      sendDisabled := true;
    }

    /** The part of `sendMessage` that runs once the request has ended: show
        the reply (or the fallback text) as a bot bubble and enable the send
        button again. */
    method FinishSend(reply: string)
      modifies this`sendDisabled, this`transcript, this`context
      requires Valid()
      ensures Valid()
      ensures !sendDisabled
      ensures transcript == old(transcript) + [Bubble(Turn(Bot, reply))]
      ensures context == Remember(old(context), Turn(Bot, reply))
    {
      AddMessage(reply, Bot);
      sendDisabled := false;
    }

    /** `sendMessage(message)` with the request ending as `outcome`: an empty
        message changes nothing; otherwise the chips are hidden, the user's
        bubble and then exactly one bot bubble are added, the count rises by
        one, the input is cleared and the send button ends enabled, whether
        or not a lead was captured. */
    method SendMessage(message: string, outcome: ReplyOutcome)
      modifies this`chipsShown, this`messageCount, this`inputValue, this`sendDisabled,
        this`transcript, this`context
      requires Valid()
      ensures Valid()
      ensures message == "" ==> unchanged(this)
      ensures message != "" ==>
        && !chipsShown && messageCount == old(messageCount) + 1
        && inputValue == "" && !sendDisabled
        && transcript == old(transcript) + [Bubble(Turn(User, message)), Bubble(Turn(Bot, ReplyText(outcome)))]
        && context == Remember(Remember(old(context), Turn(User, message)), Turn(Bot, ReplyText(outcome)))
    {
      if message != "" {
        BeginSend(message);
        FinishSend(ReplyText(outcome));
        assert transcript == old(transcript) + [Bubble(Turn(User, message))] + [Bubble(Turn(Bot, ReplyText(outcome)))];
      }
    }

    /** The user types into the input, which only an enabled input allows. */
    method TypeInput(text: string)
      modifies this`inputValue
      requires Valid()
      requires !inputDisabled
      ensures Valid()
      ensures inputValue == text
    {
      inputValue := text;
    }

    /** The chat form is submitted, which only an enabled send button allows:
        the trimmed input is sent. While the chat is locked the input is empty,
        so nothing is sent. */
    method SubmitChatForm(outcome: ReplyOutcome)
      modifies this`chipsShown, this`messageCount, this`inputValue, this`sendDisabled,
        this`transcript, this`context
      requires Valid()
      requires !sendDisabled
      ensures Valid()
      ensures old(inputDisabled) ==> unchanged(this)
      ensures Trim(old(inputValue), IsJsSpace) == "" ==> unchanged(this)
      ensures Trim(old(inputValue), IsJsSpace) != "" ==>
        var m := Trim(old(inputValue), IsJsSpace);
        && !chipsShown && messageCount == old(messageCount) + 1
        && inputValue == "" && !sendDisabled
        && transcript == old(transcript) + [Bubble(Turn(User, m)), Bubble(Turn(Bot, ReplyText(outcome)))]
        && context == Remember(Remember(old(context), Turn(User, m)), Turn(Bot, ReplyText(outcome)))
    {
      SendMessage(Trim(inputValue, IsJsSpace), outcome);
    }

    /** A click on a suggestion chip: its text is sent with no check of the
        lock, and the chips are hidden. */
    method ClickChip(text: string, outcome: ReplyOutcome)
      modifies this`chipsShown, this`messageCount, this`inputValue, this`sendDisabled,
        this`transcript, this`context
      requires Valid()
      requires chipsShown
      ensures Valid()
      ensures !chipsShown
      ensures text != "" ==>
        && messageCount == old(messageCount) + 1 && inputValue == "" && !sendDisabled
        && transcript == old(transcript) + [Bubble(Turn(User, text)), Bubble(Turn(Bot, ReplyText(outcome)))]
        && context == Remember(Remember(old(context), Turn(User, text)), Turn(Bot, ReplyText(outcome)))
      ensures text == "" ==>
        && messageCount == old(messageCount) && inputValue == old(inputValue)
        && sendDisabled == old(sendDisabled) && transcript == old(transcript) && context == old(context)
    {
      SendMessage(text, outcome);
      chipsShown := false;
    }
  }

  /** Two clicks on the toggle (open, close, open) before the first timer
      fires schedule two forms, and both are shown. */
  method TwoQuickOpens() returns (cards: nat, scheduled: nat)
    ensures scheduled == 2 && cards == 2
  {
    var s := new ChatSession(true, true);
    s.ToggleChat();
    s.ToggleChat();
    s.ToggleChat();
    scheduled := s.pendingForms;
    s.ShowLeadForm();
    s.ShowLeadForm();
    cards := |s.transcript|;
  }

  /** A chip clicked before any lead is captured sends its text: the count
      rises, the send button ends enabled, and the input stays locked. */
  method ChipBeforeCapture(chip: string, reply: string) returns (count: nat, sendOff: bool, inputOff: bool, captured: bool)
    requires chip != ""
    ensures count == 1 && !sendOff && inputOff && !captured
  {
    var s := new ChatSession(false, true);
    s.ClickChip(chip, Replied(reply));
    count, sendOff, inputOff, captured := s.messageCount, s.sendDisabled, s.inputDisabled, s.leadCaptured;
  }

  /** A failed lead submit leaves the chat locked and the card ready to be
      sent again; a retry on the same card can then succeed. */
  method FailThenRetry() returns (lockedAfterFailure: bool, capturedAfterRetry: bool)
    ensures lockedAfterFailure && capturedAfterRetry
  {
    var s := new ChatSession(true, false);
    s.ToggleChat();
    s.ShowLeadForm();
    assert s.transcript == [LeadCard(false, AsTemplated)];
    s.SubmitLead(0);
    assert s.transcript == [LeadCard(true, Sending)];
    s.LeadSubmitFailed(0);
    assert s.transcript == [LeadCard(false, SendDetails)];
    lockedAfterFailure := s.inputDisabled && !s.leadCaptured;
    s.SubmitLead(0);
    s.LeadSubmitSucceeded(0);
    capturedAfterRetry := s.leadCaptured && !s.inputDisabled;
  }
}
