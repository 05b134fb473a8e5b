/**
 * The project's message list: which fragment it activates on its own when assistant messages
 * arrive, when it shows the loading indicator, and which message cards show their fragment as
 * the active one.
 */
module MessagesContainer {
  import opened Wrappers
  import opened History

  /** A saved fragment, identified by its id. */
  datatype Fragment = Fragment(id: string, sandboxUrl: string, title: string)
  /** A message as listed for a project. */
  datatype Message = Message(id: string, role: DbRole, fragment: Option<Fragment>)

  /** `findLast` by role: the position of the last assistant message, if any. */
  function LastAssistantIndex(messages: seq<Message>): (r: Option<nat>)
    ensures r.Some? ==> r.value < |messages| && messages[r.value].role == ASSISTANT
    ensures r.Some? ==> forall k :: r.value < k < |messages| ==> messages[k].role != ASSISTANT
    ensures r.None? ==> forall k :: 0 <= k < |messages| ==> messages[k].role != ASSISTANT
    decreases |messages|
  {
    if messages == [] then None
    else if messages[|messages| - 1].role == ASSISTANT then Some(|messages| - 1)
    else LastAssistantIndex(messages[..|messages| - 1])
  }

  function LastAssistant(messages: seq<Message>): Option<Message> {
    match LastAssistantIndex(messages)
    case None => None
    case Some(i) => Some(messages[i])
  }

  /** The fragment the page shows, and the id of the assistant message last auto-selected. */
  datatype SelectionState = SelectionState(activeFragment: Option<Fragment>, lastAssistantId: Option<string>)

  /**
   * The auto-select effect: when the last assistant message has a fragment and is not the
   * message last auto-selected, its fragment becomes active and its id is remembered.
   */
  function AutoSelect(s: SelectionState, messages: seq<Message>): (r: SelectionState)
    ensures r != s <==>
      LastAssistant(messages).Some? && LastAssistant(messages).value.fragment.Some? &&
      Some(LastAssistant(messages).value.id) != s.lastAssistantId
    ensures r != s ==>
      r == SelectionState(LastAssistant(messages).value.fragment, Some(LastAssistant(messages).value.id))
    ensures s.activeFragment.Some? ==> r.activeFragment.Some?
  {
    match LastAssistant(messages)
    case Some(m) =>
      if m.fragment.Some? && Some(m.id) != s.lastAssistantId
      then SelectionState(m.fragment, Some(m.id))
      else s
    case None => s
  }

  /**
   * The effect changes something only to activate the fragment of the last assistant message
   * and remember that message's id; the active fragment is never cleared.
   */
  lemma AutoSelectChanges(s: SelectionState, messages: seq<Message>)
    ensures var r := AutoSelect(s, messages);
      r != s ==>
        exists i :: 0 <= i < |messages| && LastAssistantIndex(messages) == Some(i) &&
          messages[i].fragment.Some? && r.activeFragment == messages[i].fragment &&
          r.lastAssistantId == Some(messages[i].id) != s.lastAssistantId
    ensures s.activeFragment.Some? ==> AutoSelect(s, messages).activeFragment.Some?
  {
  }

  /** Running the effect again over the same messages changes nothing. */
  lemma AutoSelectIdempotent(s: SelectionState, messages: seq<Message>)
    ensures AutoSelect(AutoSelect(s, messages), messages) == AutoSelect(s, messages)
  {
  }

  /** Only the last assistant message matters: earlier ones and trailing user messages do not. */
  lemma AutoSelectLooksAtLastAssistant(s: SelectionState, ms1: seq<Message>, ms2: seq<Message>)
    requires LastAssistant(ms1) == LastAssistant(ms2)
    ensures AutoSelect(s, ms1) == AutoSelect(s, ms2)
  {
  }

  /** A user message sent after the list leaves the last assistant message where it was. */
  lemma {:induction false} UserMessageKeepsLastAssistant(messages: seq<Message>, m: Message)
    requires m.role == USER
    ensures LastAssistant(messages + [m]) == LastAssistant(messages)
  {
    var ms := messages + [m];
    assert ms[..|ms| - 1] == messages;
    assert LastAssistantIndex(ms) == LastAssistantIndex(messages);
  }

  /**
   * Once a message has been auto-selected, a fragment the user clicks afterwards stays active
   * until a different assistant message with a fragment arrives.
   */
  lemma AutoSelectOncePerMessage(s: SelectionState, messages: seq<Message>, clicked: Option<Fragment>)
    requires LastAssistant(messages).Some? && s.lastAssistantId == Some(LastAssistant(messages).value.id)
    ensures AutoSelect(SelectionState(clicked, s.lastAssistantId), messages).activeFragment == clicked
  {
  }

  /** The list ends with a message from the user: the loading indicator is shown. */
  predicate LastMessageByUser(messages: seq<Message>) {
    var lastMessage := if |messages| > 0 then Some(messages[|messages| - 1]) else None;
    lastMessage.Some? && lastMessage.value.role == USER
  }

  /** Loading shows exactly for a non-empty list whose last message is the user's. */
  lemma LoadingIndicator(messages: seq<Message>, m: Message)
    ensures LastMessageByUser(messages) <==> |messages| > 0 && messages[|messages| - 1].role == USER
    ensures LastMessageByUser(messages + [m]) <==> m.role == USER
  {
  }

  function FragmentId(f: Option<Fragment>): Option<string> {
    if f.Some? then Some(f.value.id) else None
  }

  /** `activeFragment?.id === message.fragment?.id`. */
  predicate IsActiveFragment(active: Option<Fragment>, message: Message) {
    FragmentId(active) == FragmentId(message.fragment)
  }

  /**
   * A card is active when its fragment has the active fragment's id; when no fragment is active,
   * exactly the cards without a fragment compare as active.
   */
  lemma ActiveFragmentComparison(active: Option<Fragment>, message: Message)
    ensures active.None? ==> (IsActiveFragment(active, message) <==> message.fragment.None?)
    ensures active.Some? ==> (IsActiveFragment(active, message) <==>
      message.fragment.Some? && message.fragment.value.id == active.value.id)
  {
  }

  /** The container's state: the active fragment and the remembered assistant message id. */
  class MessagesContainerState {
    var activeFragment: Option<Fragment>
    var lastAssistantMessageRef: Option<string>

    function State(): SelectionState
      reads this
    {
      SelectionState(activeFragment, lastAssistantMessageRef)
    }

    constructor(activeFragment: Option<Fragment>)
      ensures this.activeFragment == activeFragment && lastAssistantMessageRef == None
    {
      this.activeFragment := activeFragment;
      lastAssistantMessageRef := None;
    }

    /** The auto-select effect, run after the messages change. */
    method AutoSelectEffect(messages: seq<Message>)
      modifies this
      ensures State() == AutoSelect(old(State()), messages)
    {
      var lastAssistantMessage := LastAssistant(messages);
      if lastAssistantMessage.Some? && lastAssistantMessage.value.fragment.Some?
        && Some(lastAssistantMessage.value.id) != lastAssistantMessageRef
      {
        activeFragment := lastAssistantMessage.value.fragment;
        lastAssistantMessageRef := Some(lastAssistantMessage.value.id);
      }
    }

    /** Clicking a card's fragment makes it active (possibly none); the remembered id is kept. */
    method OnFragmentClick(message: Message)
      modifies this`activeFragment
      ensures activeFragment == message.fragment
      ensures IsActiveFragment(activeFragment, message)
    {
      activeFragment := message.fragment;
    }
  }
}
