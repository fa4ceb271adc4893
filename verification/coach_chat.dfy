/** The coach chat: sending a message, turning the server's answer into
    the next message, and saving a suggested workout as a custom workout.
    The request itself is left out; the answer arrives as an `Answer`. */
module CoachChat {
  import opened Wrappers
  import Text
  import JsNumber
  import HistoryView

  /** A workout the coach suggests, as parsed from its answer. */
  datatype Workout = Workout(name: string, date: string, exercises: seq<HistoryView.Item>, lastPerformed: string)

  datatype Role = User | Assistant

  /** A message holds text, or a workout the page shows as a card. */
  datatype Content = Said(text: string) | Plan(workout: Workout)

  datatype Message = Message(role: Role, content: Content)

  /** The conversation, the input box, whether an answer is awaited, the
      indices of the messages already saved, and the stored custom workouts. */
  datatype Chat = Chat(messages: seq<Message>, input: string, loading: bool, saved: set<nat>, stored: seq<Workout>)

  /** The chat as it opens: the greeting, nothing typed, nothing saved. */
  function Opening(stored: seq<Workout>): (c: Chat)
    ensures |c.messages| == 1 && c.messages[0].role == Assistant && !c.loading && c.saved == {}
  {
    Chat([Message(Assistant, Said("Hi, how can I help you plan your workout?"))], "", false, {}, stored)
  }

  /** `handleSend` up to the request: nothing happens for a blank input or
      while an answer is awaited; otherwise the input, untrimmed, becomes
      the user's message, the box is cleared and an answer is awaited. */
  function Send(c: Chat): (r: Chat)
    ensures r.saved == c.saved && r.stored == c.stored
  {
    if |Text.Trim(c.input)| == 0 || c.loading then c
    else c.(messages := c.messages + [Message(User, Said(c.input))], input := "", loading := true)
  }

  lemma SendMeaning(c: Chat)
    ensures Text.IsBlank(c.input) || c.loading ==> Send(c) == c
    ensures !Text.IsBlank(c.input) && !c.loading ==>
      && Send(c).messages == c.messages + [Message(User, Said(c.input))]
      && Send(c).input == "" && Send(c).loading
  {
  }

  /** How the request ended. `Rejected` is a response that is not ok,
      with the `error` its body names ("" when none); `Answered` is an ok
      response with its `response` text ("" when absent) and what
      `JSON.parse` made of it (None when it throws); `Thrown` is any other
      exception, with its message when it is an `Error`. */
  datatype Answer =
    | Rejected(error: string, status: nat)
    | Answered(response: string, parsed: Option<Workout>)
    | Thrown(message: Option<string>)

  /** The message the answer becomes. */
  function Reply(a: Answer): (m: Message)
    ensures m.role == Assistant
    ensures m.content.Plan? <==> a.Answered? && a.response != "" && a.parsed.Some?
  {
    match a
    case Rejected(error, status) =>
      var why := if error != "" then error else "API request failed with status " + JsNumber.NatToString(status);
      Message(Assistant, Said("Error: " + why))
    case Answered(response, parsed) =>
      if response == "" then Message(Assistant, Said("Error: Received empty response from API"))
      else
        (match parsed
         case Some(w) => Message(Assistant, Plan(w))
         case None => Message(Assistant, Said("Failed to parse workout: " + response)))
    case Thrown(message) =>
      match message
      case Some(text) => Message(Assistant, Said("Error: " + text))
      case None => Message(Assistant, Said("Sorry, I couldn't get a response. Please try again."))
  }

  /** The rest of `handleSend`: the wait ends and the reply is appended. */
  function Receive(c: Chat, a: Answer): (r: Chat)
    ensures r.messages == c.messages + [Reply(a)] && !r.loading
    ensures r.input == c.input && r.saved == c.saved && r.stored == c.stored
  {
    c.(messages := c.messages + [Reply(a)], loading := false)
  }

  /** An answer that does not parse is shown as text that quotes it, never
      as a workout; a failed request is shown as an error. */
  lemma FailuresAreText(c: Chat, a: Answer)
    ensures !a.Answered? ==> Receive(c, a).messages[|c.messages|].content.Said?
    ensures a.Answered? && a.response != "" && a.parsed.None? ==>
      Receive(c, a).messages[|c.messages|].content == Said("Failed to parse workout: " + a.response)
  {
  }

  /** A send followed by its answer adds the user's message and then the
      reply, and leaves the chat ready for the next message. */
  lemma SendThenReceive(c: Chat, a: Answer)
    requires !Text.IsBlank(c.input) && !c.loading
    ensures Receive(Send(c), a).messages == c.messages + [Message(User, Said(c.input)), Reply(a)]
    ensures !Receive(Send(c), a).loading && Receive(Send(c), a).input == ""
  {
  }

  /** `handleSaveWorkout`: a message already saved is ignored; otherwise the
      workout goes to the end of the stored list and the index is marked
      saved. When the stored list cannot be read (`readable` false), an
      error message is appended instead. */
  function Save(c: Chat, w: Workout, index: nat, readable: bool): (r: Chat)
    ensures r.input == c.input && r.loading == c.loading
  {
    if index in c.saved then c
    else if !readable then c.(messages := c.messages + [Message(Assistant, Said("Error saving workout to local storage."))])
    else c.(stored := c.stored + [w], saved := c.saved + {index})
  }

  /** Saving a message twice stores it once. */
  lemma SaveIdempotent(c: Chat, w: Workout, index: nat)
    ensures Save(Save(c, w, index, true), w, index, true) == Save(c, w, index, true)
  {
  }

  /** A first save appends exactly the workout and marks exactly the index;
      the stored workouts before it are kept in place. */
  lemma SaveMeaning(c: Chat, w: Workout, index: nat)
    requires index !in c.saved
    ensures Save(c, w, index, true).stored == c.stored + [w]
    ensures Save(c, w, index, true).saved == c.saved + {index}
    ensures Save(c, w, index, true).messages == c.messages
    ensures index in Save(c, w, index, true).saved && |Save(c, w, index, true).saved| == |c.saved| + 1
  {
  }
}
