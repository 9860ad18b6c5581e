/** The in-memory session store of the API (app/session_manager.py): a map from session
    id to the list of messages exchanged in it, created on first use, trimmed to the
    most recent `maxMessages`, and summarised on request. Timestamps are left out. */
module SessionManager {
  import opened Common
  import opened Seqs
  import opened RagChain

  /** A message as the store keeps it. */
  datatype StoredMessage = StoredMessage(role: string, content: string, classification: Option<string>, isCrisis: bool)

  /** All sessions, and the per-session message limit. */
  datatype Manager = Manager(sessions: map<string, seq<StoredMessage>>, maxMessages: int)

  /** A manager without sessions. */
  function NewManager(maxMessages: int): (m: Manager)
    ensures |m.sessions| == 0 && m.maxMessages == maxMessages
  {
    Manager(map[], maxMessages)
  }

  /** `_get_or_create_session`: the session's messages, registering an empty session when
      the id is unknown; known sessions are left as they are. */
  function GetOrCreate(m: Manager, id: string): (r: (Manager, seq<StoredMessage>))
    ensures id in r.0.sessions && r.1 == r.0.sessions[id]
    ensures id in m.sessions ==> r.0 == m
    ensures id !in m.sessions ==> r.0.sessions == m.sessions[id := []] && r.0.maxMessages == m.maxMessages && r.1 == []
  {
    if id in m.sessions then (m, m.sessions[id])
    else (m.(sessions := m.sessions[id := []]), [])
  }

  /** The messages of a session, or none when the id is unknown. */
  function MessagesOf(m: Manager, id: string): seq<StoredMessage>
  {
    if id in m.sessions then m.sessions[id] else []
  }

  /** The trimming step of `add_message`: a list longer than `max` becomes
      `messages[-max:]`. For a positive limit that keeps exactly the `max` most recent
      messages; Python's slicing makes a zero limit keep everything and a negative one
      drop the first `-max` messages. */
  function Trim(msgs: seq<StoredMessage>, max: int): (r: seq<StoredMessage>)
    ensures |r| <= |msgs| && r == msgs[|msgs| - |r|..]
    ensures |msgs| <= max ==> r == msgs
    ensures max > 0 ==> |r| == Min(|msgs|, max)
    ensures max == 0 ==> r == msgs
    ensures max >= 0 && |msgs| > 0 ==> |r| > 0
  {
    if |msgs| > max then SliceFrom(msgs, -max) else msgs
  }

  /** With a negative limit, trimming drops the first `-max` messages, or all of them when
      there are fewer. */
  lemma TrimNegativeLimit(msgs: seq<StoredMessage>, max: int)
    requires max < 0
    ensures Trim(msgs, max) == msgs[Min(-max, |msgs|)..]
  {
  }

  /** `add_message`: creates the session if needed, appends the message and trims. */
  function AddMessage(m: Manager, id: string, role: string, content: string,
                      classification: Option<string>, isCrisis: bool): (r: Manager)
    ensures r.maxMessages == m.maxMessages
    ensures id in r.sessions
    ensures r.sessions.Keys == m.sessions.Keys + {id}
    ensures forall other | other in m.sessions && other != id :: r.sessions[other] == m.sessions[other]
    ensures var msgs := r.sessions[id];
      var appended := MessagesOf(m, id) + [StoredMessage(role, content, classification, isCrisis)];
      && |msgs| <= |appended| && msgs == appended[|appended| - |msgs|..]
      && (m.maxMessages >= 0 ==> |msgs| > 0 && msgs[|msgs| - 1] == StoredMessage(role, content, classification, isCrisis))
      && (m.maxMessages > 0 ==> |msgs| == Min(|appended|, m.maxMessages))
      && (m.maxMessages == 0 ==> msgs == appended)
  {
    var (m1, msgs) := GetOrCreate(m, id);
    var message := StoredMessage(role, content, classification, isCrisis);
    var trimmed := Trim(msgs + [message], m.maxMessages);
    m1.(sessions := m1.sessions[id := trimmed])
  }

  /** With a negative limit, adding a message keeps Python's `messages[-max:]` of the
      appended list: the oldest `-max` messages are dropped, the new one among them when
      the list is that short. */
  lemma AddMessageNegativeLimit(m: Manager, id: string, role: string, content: string,
                                classification: Option<string>, isCrisis: bool)
    requires m.maxMessages < 0
    ensures var appended := MessagesOf(m, id) + [StoredMessage(role, content, classification, isCrisis)];
      AddMessage(m, id, role, content, classification, isCrisis).sessions[id]
        == appended[Min(-m.maxMessages, |appended|)..]
  {
  }

  /** `get_chat_history`: the role and content of every stored message, in order,
      creating the session when the id is unknown. */
  function GetChatHistory(m: Manager, id: string): (r: (Manager, seq<ChatMessage>))
    ensures r.0 == GetOrCreate(m, id).0
    ensures |r.1| == |MessagesOf(m, id)|
    ensures forall i | 0 <= i < |r.1| ::
      r.1[i] == ChatMessage(MessagesOf(m, id)[i].role, MessagesOf(m, id)[i].content)
  {
    var (m1, msgs) := GetOrCreate(m, id);
    (m1, seq(|msgs|, i requires 0 <= i < |msgs| => ChatMessage(msgs[i].role, msgs[i].content)))
  }

  /** `clear_session`: removes the session and answers whether it existed. */
  function ClearSession(m: Manager, id: string): (r: (Manager, bool))
    ensures r.1 <==> id in m.sessions
    ensures r.0.sessions.Keys == m.sessions.Keys - {id}
    ensures forall other | other in r.0.sessions :: r.0.sessions[other] == m.sessions[other]
    ensures !r.1 ==> r.0 == m
    ensures r.0.maxMessages == m.maxMessages
  {
    if id in m.sessions then (m.(sessions := m.sessions - {id}), true) else (m, false)
  }

  /** `get_session_count`. */
  function SessionCount(m: Manager): (n: nat)
    ensures n == |m.sessions.Keys|
  {
    |m.sessions|
  }

  /** A manager whose sessions all respect the message limit. */
  predicate Bounded(m: Manager)
  {
    forall id | id in m.sessions :: |m.sessions[id]| <= m.maxMessages
  }

  /** With a positive limit, adding a message keeps every session within the limit. */
  lemma AddMessageKeepsBound(m: Manager, id: string, role: string, content: string,
                             classification: Option<string>, isCrisis: bool)
    requires m.maxMessages > 0 && Bounded(m)
    ensures Bounded(AddMessage(m, id, role, content, classification, isCrisis))
  {
    var r := AddMessage(m, id, role, content, classification, isCrisis);
    forall other | other in r.sessions ensures |r.sessions[other]| <= r.maxMessages {
      if other != id {
        assert other in m.sessions;
      }
    }
  }

  /** Adding a message to a new session adds one session; to a known one, none. */
  lemma AddMessageCount(m: Manager, id: string, role: string, content: string,
                        classification: Option<string>, isCrisis: bool)
    ensures SessionCount(AddMessage(m, id, role, content, classification, isCrisis))
      == SessionCount(m) + (if id in m.sessions then 0 else 1)
  {
    var r := AddMessage(m, id, role, content, classification, isCrisis);
    if id in m.sessions {
      assert r.sessions.Keys == m.sessions.Keys;
    } else {
      assert r.sessions.Keys == m.sessions.Keys + {id};
    }
  }

  /** Clearing a known session removes exactly one. */
  lemma ClearSessionCount(m: Manager, id: string)
    ensures SessionCount(ClearSession(m, id).0) == SessionCount(m) - (if id in m.sessions then 1 else 0)
  {
  }

  /** After adding a message, the session's history ends with that message's role and
      content. */
  lemma HistoryEndsWithAdded(m: Manager, id: string, role: string, content: string,
                             classification: Option<string>, isCrisis: bool)
    requires m.maxMessages >= 0
    ensures var h := GetChatHistory(AddMessage(m, id, role, content, classification, isCrisis), id).1;
      |h| > 0 && h[|h| - 1] == ChatMessage(role, content)
  {
    var m2 := AddMessage(m, id, role, content, classification, isCrisis);
    HistoryEndsWithLast(m2, id);
  }

  /** A session's history ends with the role and content of its last stored message. */
  lemma HistoryEndsWithLast(m: Manager, id: string)
    requires id in m.sessions && |m.sessions[id]| > 0
    ensures var msgs := m.sessions[id];
      var h := GetChatHistory(m, id).1;
      |h| > 0 && h[|h| - 1] == ChatMessage(msgs[|msgs| - 1].role, msgs[|msgs| - 1].content)
  {
    assert MessagesOf(m, id) == m.sessions[id];
  }

  // ---------------------------------------------------------------------------
  // get_session_stats

  datatype SessionStats = SessionStats(sessionId: string, messageCount: nat, crisisDetections: nat,
                                       classifications: map<string, nat>)

  /** The classifications the statistics count: present and non-empty, in order. */
  function Classified(msgs: seq<StoredMessage>): (r: seq<string>)
    ensures |r| <= |msgs|
  {
    if |msgs| == 0 then []
    else
      var last := msgs[|msgs| - 1];
      Classified(msgs[..|msgs| - 1]) +
        (if last.classification.Some? && last.classification.value != "" then [last.classification.value] else [])
  }

  /** Number of messages flagged as a crisis. */
  function CrisisCount(msgs: seq<StoredMessage>): (n: nat)
    ensures n <= |msgs|
  {
    if |msgs| == 0 then 0
    else CrisisCount(msgs[..|msgs| - 1]) + (if msgs[|msgs| - 1].isCrisis then 1 else 0)
  }

  /** How many times `counts` says `c` occurs. */
  function CountIn(counts: map<string, nat>, c: string): nat
  {
    if c in counts then counts[c] else 0
  }

  /** The tally of `xs`, counted from the front. */
  function TallyOf(xs: seq<string>): map<string, nat>
  {
    if |xs| == 0 then map[]
    else
      var init := TallyOf(xs[..|xs| - 1]);
      var c := xs[|xs| - 1];
      init[c := CountIn(init, c) + 1]
  }

  /** The tally maps every string of `xs` to its number of occurrences, and holds no
      other key. */
  lemma {:induction false} TallyOfCounts(xs: seq<string>)
    ensures forall c :: CountIn(TallyOf(xs), c) == multiset(xs)[c]
    ensures forall c :: c in TallyOf(xs) <==> c in multiset(xs)
  {
    if |xs| > 0 {
      var init := xs[..|xs| - 1];
      var last := xs[|xs| - 1];
      TallyOfCounts(init);
      assert xs == init + [last];
      assert multiset(xs) == multiset(init) + multiset{last};
    }
  }

  /** The tally after one more message: its classification counted once more when it is
      present and non-empty. */
  function Tallied(t: map<string, nat>, m: StoredMessage): map<string, nat>
  {
    if m.classification.Some? && m.classification.value != "" then
      t[m.classification.value := CountIn(t, m.classification.value) + 1]
    else t
  }

  /** One more message adds its crisis flag to the count and its classification to the
      tally. */
  lemma CountStep(msgs: seq<StoredMessage>, i: nat)
    requires i < |msgs|
    ensures CrisisCount(msgs[..i + 1]) == CrisisCount(msgs[..i]) + (if msgs[i].isCrisis then 1 else 0)
    ensures TallyOf(Classified(msgs[..i + 1])) == Tallied(TallyOf(Classified(msgs[..i])), msgs[i])
  {
    assert msgs[..i + 1][..i] == msgs[..i];
    var m := msgs[i];
    var xs := Classified(msgs[..i]);
    if m.classification.Some? && m.classification.value != "" {
      var c := m.classification.value;
      assert Classified(msgs[..i + 1]) == xs + [c];
      assert (xs + [c])[..|xs|] == xs;
    } else {
      assert Classified(msgs[..i + 1]) == xs + [];
      assert xs + [] == xs;
    }
  }

  /** The counting loop of `get_session_stats`: the crisis messages and, per non-empty
      classification, how many messages carry it. */
  method CountMessages(msgs: seq<StoredMessage>) returns (crisis: nat, counts: map<string, nat>)
    ensures crisis == CrisisCount(msgs)
    ensures counts == TallyOf(Classified(msgs))
  {
    crisis := 0;
    counts := map[];
    var i := 0;
    while i < |msgs|
      invariant 0 <= i <= |msgs|
      invariant crisis == CrisisCount(msgs[..i])
      invariant counts == TallyOf(Classified(msgs[..i]))
    {
      CountStep(msgs, i);
      if msgs[i].isCrisis {
        crisis := crisis + 1;
      }
      counts := Tallied(counts, msgs[i]);
      i := i + 1;
    }
    assert msgs[..i] == msgs;
  }

  /** `get_session_stats`: `None` for an unknown id (no session is created), otherwise the
      message count, the crisis count and the per-classification tally. */
  method GetSessionStats(m: Manager, id: string) returns (r: Option<SessionStats>)
    ensures r.None? <==> id !in m.sessions
    ensures r.Some? ==>
      var msgs := m.sessions[id];
      && r.value.sessionId == id
      && r.value.messageCount == |msgs|
      && r.value.crisisDetections == CrisisCount(msgs)
      && (forall c :: c in r.value.classifications <==> c in multiset(Classified(msgs)))
      && (forall c | c in r.value.classifications :: r.value.classifications[c] == multiset(Classified(msgs))[c])
  {
    if id !in m.sessions {
      return None;
    }
    var msgs := m.sessions[id];
    var crisis, counts := CountMessages(msgs);
    TallyOfCounts(Classified(msgs));
    return Some(SessionStats(id, |msgs|, crisis, counts));
  }

  /** The classifications and crisis count of a joined list are those of its parts. */
  lemma {:induction false} ClassifiedSplit(a: seq<StoredMessage>, b: seq<StoredMessage>)
    ensures Classified(a + b) == Classified(a) + Classified(b)
    ensures CrisisCount(a + b) == CrisisCount(a) + CrisisCount(b)
    decreases |b|
  {
    if |b| == 0 {
      assert a + b == a;
    } else {
      var init := b[..|b| - 1];
      assert (a + b)[..|a + b| - 1] == a + init;
      assert (a + b)[|a + b| - 1] == b[|b| - 1];
      ClassifiedSplit(a, init);
    }
  }
}
