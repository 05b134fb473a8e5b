/**
 * Seeding the conversation with the project's previous messages: the five most recent
 * messages are fetched newest first, formatted as chat messages, and reversed so the
 * agent sees them oldest first.
 */
module History {

  /** How many previous messages are fetched. */
  const HistoryLimit: nat := 5

  /** The role of a stored message. */
  datatype DbRole = USER | ASSISTANT

  /** A stored message of the project, as far as seeding is concerned. */
  datatype DbMessage = DbMessage(role: DbRole, content: string)

  /** The role of a chat message handed to the agent. */
  datatype ChatRole = User | Assistant

  /** A text chat message handed to the agent. */
  datatype ChatMessage = ChatMessage(role: ChatRole, content: string)

  function Min(a: nat, b: nat): nat {
    if a <= b then a else b
  }

  /** A sequence in reverse order (`Array.prototype.reverse`). */
  function Reverse<T>(s: seq<T>): (r: seq<T>)
    ensures |r| == |s|
  {
    if s == [] then [] else Reverse(s[1..]) + [s[0]]
  }

  /** Element `k` of the reverse is element `|s| - 1 - k` of the original. */
  lemma {:induction false} ReverseAt<T>(s: seq<T>, k: nat)
    requires k < |s|
    ensures Reverse(s)[k] == s[|s| - 1 - k]
  {
    if k < |s| - 1 {
      ReverseAt(s[1..], k);
    }
  }

  /** The formatting of one stored message: `ASSISTANT` becomes `assistant`, every other
      role `user`; the content is kept. */
  function Format(m: DbMessage): (c: ChatMessage)
    ensures c.content == m.content
    ensures c.role == Assistant <==> m.role == ASSISTANT
  {
    ChatMessage(if m.role == ASSISTANT then Assistant else User, m.content)
  }

  /** The query result: the project's messages (given in creation order) newest first,
      at most `HistoryLimit` of them. */
  function RecentNewestFirst(history: seq<DbMessage>): (r: seq<DbMessage>)
    ensures |r| == Min(|history|, HistoryLimit)
    ensures forall k :: 0 <= k < |r| ==> r[k] == history[|history| - 1 - k]
  {
    var r := Reverse(history)[..Min(|history|, HistoryLimit)];
    assert forall k :: 0 <= k < |r| ==> r[k] == history[|history| - 1 - k] by {
      forall k | 0 <= k < |r| ensures r[k] == history[|history| - 1 - k] {
        ReverseAt(history, k);
      }
    }
    r
  }

  /** The `get-previous-messages` step: formats each fetched message in fetch order, then
      reverses. The result is the last (at most five) messages of the project, oldest
      first, each formatted. */
  method GetPreviousMessages(history: seq<DbMessage>) returns (formatted: seq<ChatMessage>)
    ensures |formatted| == Min(|history|, HistoryLimit)
    ensures forall k :: 0 <= k < |formatted| ==> formatted[k] == Format(history[|history| - |formatted| + k])
  {
    var messages := RecentNewestFirst(history);
    var pushed: seq<ChatMessage> := [];
    var i := 0;
    while i < |messages|
      invariant 0 <= i <= |messages|
      invariant |pushed| == i
      invariant forall k :: 0 <= k < i ==> pushed[k] == Format(messages[k])
    {
      pushed := pushed + [Format(messages[i])];
      i := i + 1;
    }
    formatted := Reverse(pushed);
    forall k | 0 <= k < |formatted|
      ensures formatted[k] == Format(history[|history| - |formatted| + k])
    {
      ReverseAt(pushed, k);
    }
  }
}
