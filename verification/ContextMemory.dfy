/** Conversation threads, their compaction, and the prompt rebuilt from a compact state and
    the messages that came later. */
module ContextMemory {
  import opened Options
  import opened CodeUnits
  import Checksum

  datatype Role = User | Assistant

  datatype Status = Complete | Interrupted | Failed

  datatype Message = Message(id: Text, role: Role, content: Text, status: Option<Status>)

  datatype Thread = Thread(id: Text, messages: seq<Message>)

  /** The part of a compact state that prompts and audits depend on; the mined summary is left out. */
  datatype CompactState = CompactState(
    threadId: Text, fromMessageId: Text, toMessageId: Text, preservedIds: seq<Text>, checksum: Text)

  datatype Event = Event(id: Text, threadId: Text)

  datatype Chat = Chat(threads: seq<Thread>, compactStates: seq<CompactState>, ledger: seq<Event>)

  const LETTER_E: CodeUnit := 0x65
  const LETTER_M: CodeUnit := 0x6D

  // ----- prompts -----

  predicate Usable(m: Message) {
    !Blank(m.content) &&
    !(m.role.Assistant? && (m.status == Some(Failed) || m.status == Some(Interrupted)))
  }

  function DropBeforeFirstUser(messages: seq<Message>): seq<Message> {
    if messages == [] || messages[0].role.User? then messages else DropBeforeFirstUser(messages[1..])
  }

  function UsableFrom(messages: seq<Message>, i: nat): seq<Message>
    requires i <= |messages|
    decreases |messages| - i
  {
    if i == |messages| then []
    else (if Usable(messages[i]) then [messages[i]] else []) + UsableFrom(messages, i + 1)
  }

  /** The usable messages from index i on that are preserved or come after `end`. */
  function RetainedFrom(messages: seq<Message>, i: nat, preserved: seq<Text>, end: nat): seq<Message>
    requires i <= |messages|
    decreases |messages| - i
  {
    if i == |messages| then []
    else
      (if Usable(messages[i]) && (messages[i].id in preserved || i > end) then [messages[i]] else [])
      + RetainedFrom(messages, i + 1, preserved, end)
  }

  function IndexOfId(messages: seq<Message>, id: Text): Option<nat> {
    if messages == [] then None
    else if messages[0].id == id then Some(0)
    else
      match IndexOfId(messages[1..], id)
      case None => None
      case Some(i) => Some(i + 1)
  }

  function PromptMessages(thread: Thread, compact: Option<CompactState>): seq<Message> {
    if compact.None? then DropBeforeFirstUser(UsableFrom(thread.messages, 0))
    else
      match IndexOfId(thread.messages, compact.value.toMessageId)
      case None => DropBeforeFirstUser(UsableFrom(thread.messages, 0))
      case Some(end) => DropBeforeFirstUser(RetainedFrom(thread.messages, 0, compact.value.preservedIds, end))
  }

  // ----- compaction -----

  /** Where `slice(-count)` starts in a list of n. */
  function SliceStart(n: nat, count: int): nat {
    if count > 0 then (if count >= n then 0 else n - count)
    else if -count <= n then -count else n
  }

  function Ids(messages: seq<Message>): seq<Text> {
    seq(|messages|, i requires 0 <= i < |messages| => messages[i].id)
  }

  function RoleName(role: Role): Text {
    if role.User? then Literal("user") else Literal("assistant")
  }

  function DigestLine(m: Message): Text {
    m.id + [COLON] + RoleName(m.role) + [COLON] + m.content
  }

  function Digest(messages: seq<Message>): Text {
    if messages == [] then []
    else if |messages| == 1 then DigestLine(messages[0])
    else DigestLine(messages[0]) + [LF] + Digest(messages[1..])
  }

  function Compacted(thread: Thread, count: int): CompactState {
    var messages := thread.messages;
    CompactState(
      thread.id,
      if messages == [] then [] else messages[0].id,
      if messages == [] then [] else messages[|messages| - 1].id,
      Ids(messages[SliceStart(|messages|, count)..]),
      Checksum.ChecksumText(Digest(messages)))
  }

  // ----- appending -----

  function NextMessageId(thread: Thread): Text {
    thread.id + [COLON, LETTER_M] + Decimal(|thread.messages| + 1)
  }

  function Appended(thread: Thread, role: Role, content: Text, status: Option<Status>): Thread {
    thread.(messages := thread.messages + [Message(NextMessageId(thread), role, content, status)])
  }

  /** An updater that keeps the ids, as the streaming of an answer does. */
  function Edited(thread: Thread, messageId: Text, content: Text, status: Option<Status>): Thread {
    thread.(messages := seq(|thread.messages|, i requires 0 <= i < |thread.messages| =>
      if thread.messages[i].id == messageId then thread.messages[i].(content := content, status := status)
      else thread.messages[i]))
  }

  /** Updating a message changes its content and status, and nothing else. */
  lemma EditOutcome(thread: Thread, messageId: Text, content: Text, status: Option<Status>)
    ensures var edited := Edited(thread, messageId, content, status);
            && edited.id == thread.id && |edited.messages| == |thread.messages|
            && forall i: nat | i < |thread.messages| ::
                 var before, after := thread.messages[i], edited.messages[i];
                 && after.id == before.id && after.role == before.role
                 && (before.id == messageId ==> after.content == content && after.status == status)
                 && (before.id != messageId ==> after == before)
  {
  }

  lemma AppendOutcome(thread: Thread, role: Role, content: Text, status: Option<Status>)
    ensures var n, longer := |thread.messages|, Appended(thread, role, content, status);
            && longer.id == thread.id && |longer.messages| == n + 1 && longer.messages[..n] == thread.messages
            && var added := longer.messages[n];
               added.role == role && added.content == content && added.status == status
               && added.id == thread.id + Literal(":m") + Decimal(n + 1)
  {
    assert Literal(":m") == [COLON, LETTER_M];
  }

  /** Ids are non-empty and distinct, and the ids of messages still to come are free. */
  ghost predicate WellIdentified(thread: Thread) {
    && (forall i: nat | i < |thread.messages| :: thread.messages[i].id != [])
    && (forall i: nat, j: nat | i < j < |thread.messages| :: thread.messages[i].id != thread.messages[j].id)
    && (forall i: nat, n: nat | i < |thread.messages| && n > |thread.messages| ::
          thread.messages[i].id != thread.id + [COLON, LETTER_M] + Decimal(n))
  }

  lemma EmptyWellIdentified(id: Text)
    ensures WellIdentified(Thread(id, []))
  {
  }

  /** The shipped threads start with one seed message. */
  lemma SeededWellIdentified(id: Text, seed: Message)
    requires seed.id == id + Literal(":seed-1")
    ensures WellIdentified(Thread(id, [seed]))
  {
    forall n: nat ensures seed.id != id + [COLON, LETTER_M] + Decimal(n) {
      assert seed.id[|id| + 1] == 's' as int;
      assert (id + [COLON, LETTER_M] + Decimal(n))[|id| + 1] == LETTER_M;
    }
  }

  lemma NumberedIdsDiffer(id: Text, n: nat, m: nat)
    requires n != m
    ensures id + [COLON, LETTER_M] + Decimal(n) != id + [COLON, LETTER_M] + Decimal(m)
  {
    var stem := id + [COLON];
    assert id + [COLON, LETTER_M] + Decimal(n) == stem + [LETTER_M] + Decimal(n);
    assert id + [COLON, LETTER_M] + Decimal(m) == stem + [LETTER_M] + Decimal(m);
    if id + [COLON, LETTER_M] + Decimal(n) == id + [COLON, LETTER_M] + Decimal(m) {
      NumberedNamesInjective(stem, LETTER_M, n, stem, LETTER_M, m);
    }
  }

  lemma AppendKeepsIdentified(thread: Thread, role: Role, content: Text, status: Option<Status>)
    requires WellIdentified(thread)
    ensures WellIdentified(Appended(thread, role, content, status))
  {
    hide Decimal;
    var longer := Appended(thread, role, content, status);
    var last: nat := |thread.messages|;
    assert longer.messages[last].id == NextMessageId(thread);
    assert forall i: nat | i < last :: longer.messages[i] == thread.messages[i];
    forall i: nat, j: nat | i < j < |longer.messages| ensures longer.messages[i].id != longer.messages[j].id {
      if j == last {
        assert thread.messages[i].id != thread.id + [COLON, LETTER_M] + Decimal(last + 1);
      }
    }
    forall i: nat, n: nat | i < |longer.messages| && n > |longer.messages|
      ensures longer.messages[i].id != longer.id + [COLON, LETTER_M] + Decimal(n)
    {
      if i == last {
        NumberedIdsDiffer(thread.id, last + 1, n);
      }
    }
  }

  lemma EditKeepsIdentified(thread: Thread, messageId: Text, content: Text, status: Option<Status>)
    requires WellIdentified(thread)
    ensures WellIdentified(Edited(thread, messageId, content, status))
  {
    hide Decimal;
    var edited := Edited(thread, messageId, content, status);
    assert forall i: nat | i < |thread.messages| :: edited.messages[i].id == thread.messages[i].id;
  }

  // ----- compacted prompts equal suffix prompts -----

  /** The compact state was taken when the thread had its first n messages, with this count. */
  predicate TakenAt(c: CompactState, thread: Thread, n: nat, count: int) {
    && n <= |thread.messages|
    && c.toMessageId == (if n == 0 then [] else thread.messages[n - 1].id)
    && c.preservedIds == Ids(thread.messages[SliceStart(n, count)..n])
  }

  lemma CompactedTakenNow(thread: Thread, count: int)
    ensures TakenAt(Compacted(thread, count), thread, |thread.messages|, count)
  {
    var n := |thread.messages|;
    assert thread.messages[SliceStart(n, count)..n] == thread.messages[SliceStart(n, count)..];
  }

  lemma {:induction false} IndexOfIdFirst(messages: seq<Message>, id: Text)
    ensures match IndexOfId(messages, id)
            case None => forall i: nat | i < |messages| :: messages[i].id != id
            case Some(i) => i < |messages| && messages[i].id == id
    decreases |messages|
  {
    if messages != [] && messages[0].id != id {
      IndexOfIdFirst(messages[1..], id);
      forall i: nat | i < |messages| && IndexOfId(messages, id).None? ensures messages[i].id != id {
        if i > 0 { assert messages[i] == messages[1..][i - 1]; }
      }
    }
  }

  /** Being preserved or later than the compaction means standing at or after the slice's start. */
  lemma RetainedIsSuffix(thread: Thread, c: CompactState, n: nat, count: int, i: nat)
    requires WellIdentified(thread) && TakenAt(c, thread, n, count) && 0 < n && i < |thread.messages|
    ensures (thread.messages[i].id in c.preservedIds || i > n - 1) <==> i >= SliceStart(n, count)
  {
    var start := SliceStart(n, count);
    var kept := thread.messages[start..n];
    if thread.messages[i].id in c.preservedIds {
      var j: nat :| j < |kept| && Ids(kept)[j] == thread.messages[i].id;
      assert kept[j] == thread.messages[start + j];
    }
    if start <= i < n {
      assert kept[i - start] == thread.messages[i];
      assert Ids(kept)[i - start] == thread.messages[i].id;
    }
  }

  lemma {:induction false} RetainedIsUsable(thread: Thread, c: CompactState, n: nat, count: int, i: nat)
    requires WellIdentified(thread) && TakenAt(c, thread, n, count) && 0 < n && i <= |thread.messages|
    ensures var start := SliceStart(n, count);
            RetainedFrom(thread.messages, i, c.preservedIds, n - 1) ==
            UsableFrom(thread.messages, if i <= start then start else i)
    decreases |thread.messages| - i
  {
    hide Usable;
    hide WellIdentified;
    hide TakenAt;
    hide SliceStart;
    if i < |thread.messages| {
      RetainedIsSuffix(thread, c, n, count, i);
      RetainedIsUsable(thread, c, n, count, i + 1);
    } else {
      StartInRange(n, count);
      TakenInRange(thread, c, n, count);
    }
  }

  lemma StartInRange(n: nat, count: int)
    ensures SliceStart(n, count) <= n
  {
  }

  lemma TakenInRange(thread: Thread, c: CompactState, n: nat, count: int)
    requires TakenAt(c, thread, n, count)
    ensures n <= |thread.messages|
  {
  }

  lemma {:induction false} UsableSuffix(messages: seq<Message>, start: nat, i: nat)
    requires start + i <= |messages|
    ensures UsableFrom(messages[start..], i) == UsableFrom(messages, start + i)
    decreases |messages| - i
  {
    hide Usable;
    if start + i < |messages| {
      UsableSuffix(messages, start, i + 1);
    }
  }

  function CutThread(thread: Thread, start: nat): Thread
    requires start <= |thread.messages|
  {
    thread.(messages := thread.messages[start..])
  }

  /** The prompt built with a compact state is the prompt built without one from the thread cut where
      the preserved messages began, whatever was appended or edited since. */
  lemma CompactedPrompt(thread: Thread, c: CompactState, n: nat, count: int)
    requires WellIdentified(thread) && TakenAt(c, thread, n, count)
    ensures SliceStart(n, count) <= |thread.messages|
    ensures PromptMessages(thread, Some(c)) == PromptMessages(CutThread(thread, SliceStart(n, count)), None)
  {
    var start := SliceStart(n, count);
    IndexOfIdFirst(thread.messages, c.toMessageId);
    UsableSuffix(thread.messages, start, 0);
    if n == 0 {
      assert IndexOfId(thread.messages, c.toMessageId).None?;
      assert thread.messages[0..] == thread.messages;
    } else {
      var last: nat := n - 1;
      assert thread.messages[last].id == c.toMessageId;
      assert IndexOfId(thread.messages, c.toMessageId) == Some(last);
      RetainedIsUsable(thread, c, n, count, 0);
    }
  }

  /** With a positive count the cut keeps the last `count` messages of that time; a count of zero
      keeps them all, because a slice from minus zero is the whole list.  So no more than `count` are kept
      exactly when the count is positive or there are none. */
  lemma CountOfCut(n: nat, count: int)
    ensures count > 0 ==> n - SliceStart(n, count) == if count < n then count else n
    ensures SliceStart(n, 0) == 0
    ensures count >= 0 ==> (n - SliceStart(n, count) <= count <==> count > 0 || n == 0)
  {
  }

  /** A compact state covers the thread from its first message to its last, and preserves the last ones. */
  lemma CompactionCovers(thread: Thread, count: int)
    ensures var c, n := Compacted(thread, count), |thread.messages|;
            && c.threadId == thread.id && |c.preservedIds| <= n
            && (n == 0 ==> c.fromMessageId == [] && c.toMessageId == [])
            && (n > 0 ==> c.fromMessageId == thread.messages[0].id && c.toMessageId == thread.messages[n - 1].id)
            && (count >= 0 ==> |c.preservedIds| == if 0 < count < n then count else n)
            && forall j: nat | j < |c.preservedIds| ::
                 c.preservedIds[j] == thread.messages[n - |c.preservedIds| + j].id
  {
    hide Checksum.ChecksumText, Digest;
  }

  /** The digest of a conversation is made of the digests of its parts, line by line. */
  lemma {:induction false} DigestOfParts(a: seq<Message>, b: seq<Message>)
    ensures Digest(a + b) == Digest(a) + (if a != [] && b != [] then [LF] else []) + Digest(b)
    decreases |a|
  {
    if a == [] {
      assert a + b == b;
    } else if b == [] {
      assert a + b == a;
    } else {
      assert (a + b)[1..] == a[1..] + b;
      DigestOfParts(a[1..], b);
    }
  }

  lemma DigestSample(status: Option<Status>)
    ensures Digest([Message(Literal("t:m1"), User, Literal("hi"), status)]) == Literal("t:m1:user:hi")
    ensures Digest([Message(Literal("t:m2"), Assistant, Literal("hello"), status)])
            == Literal("t:m2:assistant:hello")
  {
    assert Literal("t:m1") + [COLON] + Literal("user") + [COLON] + Literal("hi") == Literal("t:m1:user:hi");
    assert Literal("t:m2") + [COLON] + Literal("assistant") + [COLON] + Literal("hello")
        == Literal("t:m2:assistant:hello");
  }

  // ----- what a prompt holds -----

  /** Said by the user, or an answer that was completed; and not blank. */
  predicate Spoken(m: Message) {
    !Blank(m.content) && (m.role.User? || m.status.None? || m.status == Some(Complete))
  }

  /** The messages at these positions, in their order. */
  ghost predicate Picks(messages: seq<Message>, picked: seq<Message>, at: seq<nat>) {
    && |at| == |picked|
    && (forall j: nat | j < |at| :: at[j] < |messages| && picked[j] == messages[at[j]])
    && (forall i: nat, j: nat | i < j < |at| :: at[i] < at[j])
  }

  lemma PickFront(messages: seq<Message>, picked: seq<Message>, at: seq<nat>, i: nat)
    requires Picks(messages, picked, at) && i < |messages| && forall k <- at :: i < k
    ensures Picks(messages, [messages[i]] + picked, [i] + at)
    ensures forall k: nat :: k in [i] + at <==> k == i || k in at
  {
    var all := [i] + at;
    forall a: nat, b: nat | a < b < |all| ensures all[a] < all[b] {
      assert all[b] == at[b - 1] && at[b - 1] in at;
      if a > 0 { assert all[a] == at[a - 1]; }
    }
    forall j: nat | j < |all| ensures all[j] < |messages| && ([messages[i]] + picked)[j] == messages[all[j]] {
      if j > 0 { assert all[j] == at[j - 1]; }
    }
  }

  lemma UsableIsSpoken(m: Message)
    ensures Usable(m) <==> Spoken(m)
  {
    hide Blank;
    if m.status.Some? {
      match m.status.value {
        case Complete => assert m.status == Some(Complete);
        case Interrupted => assert m.status == Some(Interrupted);
        case Failed => assert m.status == Some(Failed);
      }
    }
  }

  lemma {:induction false} UsablePicks(messages: seq<Message>, i: nat) returns (at: seq<nat>)
    requires i <= |messages|
    ensures Picks(messages, UsableFrom(messages, i), at)
    ensures forall k: nat :: k in at <==> i <= k < |messages| && Spoken(messages[k])
    decreases |messages| - i
  {
    if i == |messages| {
      at := [];
    } else {
      UsableIsSpoken(messages[i]);
      var rest := UsableFrom(messages, i + 1);
      assert UsableFrom(messages, i) == if Spoken(messages[i]) then [messages[i]] + rest else rest;
      hide Usable, Spoken, Picks, UsableFrom;
      at := UsablePicks(messages, i + 1);
      if Spoken(messages[i]) {
        PickFront(messages, rest, at, i);
        at := [i] + at;
      }
    }
  }

  lemma {:induction false} RetainedPicks(messages: seq<Message>, i: nat, preserved: seq<Text>, end: nat)
    returns (at: seq<nat>)
    requires i <= |messages|
    ensures Picks(messages, RetainedFrom(messages, i, preserved, end), at)
    ensures forall k: nat :: k in at <==>
              i <= k < |messages| && Spoken(messages[k]) && (messages[k].id in preserved || k > end)
    decreases |messages| - i
  {
    if i == |messages| {
      at := [];
    } else {
      UsableIsSpoken(messages[i]);
      var rest := RetainedFrom(messages, i + 1, preserved, end);
      var kept := Spoken(messages[i]) && (messages[i].id in preserved || i > end);
      assert RetainedFrom(messages, i, preserved, end) == if kept then [messages[i]] + rest else rest;
      hide Usable, Spoken, Picks, RetainedFrom;
      at := RetainedPicks(messages, i + 1, preserved, end);
      if kept {
        PickFront(messages, rest, at, i);
        at := [i] + at;
      }
    }
  }

  lemma {:induction false} DropIs(messages: seq<Message>) returns (n: nat)
    ensures n <= |messages| && DropBeforeFirstUser(messages) == messages[n..]
    ensures (forall k: nat | k < n :: !messages[k].role.User?) && (n < |messages| ==> messages[n].role.User?)
    decreases |messages|
  {
    if messages == [] || messages[0].role.User? {
      n := 0;
    } else {
      n := DropIs(messages[1..]);
      assert forall k: nat | 0 < k < n + 1 :: messages[k] == messages[1..][k - 1];
      n := n + 1;
    }
  }

  /** The message stands in the thread, was spoken, and is not covered by the compaction: it was preserved, or
      comes after the last message compacted, or that one is no longer there. */
  ghost predicate Wanted(thread: Thread, compact: Option<CompactState>, k: nat) {
    && k < |thread.messages| && Spoken(thread.messages[k])
    && (compact.Some? ==>
          var last := compact.value.toMessageId;
          || thread.messages[k].id in compact.value.preservedIds
          || (exists e: nat :: e < k && thread.messages[e].id == last)
          || (forall e: nat | e < |thread.messages| :: thread.messages[e].id != last))
  }

  /** A user's message that is wanted stands at the position or before it. */
  ghost predicate UserSpoke(thread: Thread, compact: Option<CompactState>, k: nat) {
    exists u: nat :: u <= k && Wanted(thread, compact, u) && thread.messages[u].role.User?
  }

  lemma {:induction false} IndexOfIdIsFirst(messages: seq<Message>, id: Text)
    ensures var i := IndexOfId(messages, id);
            i.Some? ==> forall e: nat | e < i.value && e < |messages| :: messages[e].id != id
    decreases |messages|
  {
    if messages != [] && messages[0].id != id {
      IndexOfIdIsFirst(messages[1..], id);
      assert forall e: nat | 0 < e < |messages| :: messages[e] == messages[1..][e - 1];
    }
  }

  lemma WantedPicks(thread: Thread, compact: Option<CompactState>) returns (picked: seq<Message>, at: seq<nat>)
    ensures PromptMessages(thread, compact) == DropBeforeFirstUser(picked)
    ensures Picks(thread.messages, picked, at)
    ensures forall k: nat :: k in at <==> Wanted(thread, compact, k)
  {
    hide Spoken, Picks, UsableFrom, RetainedFrom, DropBeforeFirstUser;
    if compact.None? || IndexOfId(thread.messages, compact.value.toMessageId).None? {
      picked := UsableFrom(thread.messages, 0);
      at := UsablePicks(thread.messages, 0);
      if compact.Some? {
        IndexOfIdFirst(thread.messages, compact.value.toMessageId);
      }
    } else {
      var end := IndexOfId(thread.messages, compact.value.toMessageId).value;
      IndexOfIdFirst(thread.messages, compact.value.toMessageId);
      IndexOfIdIsFirst(thread.messages, compact.value.toMessageId);
      hide IndexOfId;
      picked := RetainedFrom(thread.messages, 0, compact.value.preservedIds, end);
      at := RetainedPicks(thread.messages, 0, compact.value.preservedIds, end);
      assert thread.messages[end].id == compact.value.toMessageId;
    }
  }

  lemma PicksFrom(messages: seq<Message>, picked: seq<Message>, at: seq<nat>, n: nat)
    requires Picks(messages, picked, at) && n <= |picked|
    requires (forall j: nat | j < n :: !picked[j].role.User?) && (n < |picked| ==> picked[n].role.User?)
    ensures Picks(messages, picked[n..], at[n..])
    ensures forall k: nat :: k in at[n..] <==> k in at && exists u <- at :: u <= k && messages[u].role.User?
  {
    forall k: nat
      ensures k in at[n..] <==> k in at && exists u <- at :: u <= k && messages[u].role.User?
    {
      if k in at[n..] {
        assert at[n] in at && messages[at[n]].role.User?;
      }
      if k in at && exists u <- at :: u <= k && messages[u].role.User? {
        var u :| u in at && u <= k && messages[u].role.User?;
        var j: nat :| j < |at| && at[j] == k;
        var i: nat :| i < |at| && at[i] == u;
        assert n <= i <= j && at[n..][j - n] == k;
      }
    }
  }

  /** A prompt is empty or begins with a user's message, and holds, in the order of the thread, exactly the wanted
      messages from the first wanted one of the user's on. */
  lemma PromptHolds(thread: Thread, compact: Option<CompactState>) returns (at: seq<nat>)
    ensures var prompt := PromptMessages(thread, compact);
            && Picks(thread.messages, prompt, at)
            && (prompt == [] || prompt[0].role.User?)
            && forall k: nat :: k in at <==> Wanted(thread, compact, k) && UserSpoke(thread, compact, k)
  {
    var picked, all := WantedPicks(thread, compact);
    var n := DropIs(picked);
    hide PromptMessages, DropBeforeFirstUser, Wanted;
    assert |all| == |picked|;
    PicksFrom(thread.messages, picked, all, n);
    at := all[n..];
    hide Picks;
    forall k: nat
      ensures k in at <==> Wanted(thread, compact, k) && UserSpoke(thread, compact, k)
    {
      assert UserSpoke(thread, compact, k) <==> exists u <- all :: u <= k && thread.messages[u].role.User?;
    }
  }

  // ----- runs of a chat -----

  datatype Operation =
    | Create(threadId: Text)
    | Append(threadId: Text, role: Role, content: Text, status: Option<Status>)
    | Edit(threadId: Text, messageId: Text, content: Text, status: Option<Status>)
    | Compact(threadId: Text, count: int)

  /** The chat, and for each compact state the number of messages and the count it was taken with. */
  datatype System = System(chat: Chat, takenAt: seq<(nat, int)>)

  function UpdateThreads(threads: seq<Thread>, id: Text, update: Thread -> Thread): seq<Thread> {
    seq(|threads|, i requires 0 <= i < |threads| => if threads[i].id == id then update(threads[i]) else threads[i])
  }

  function FindThread(threads: seq<Thread>, id: Text): Option<Thread> {
    if threads == [] then None else if threads[0].id == id then Some(threads[0]) else FindThread(threads[1..], id)
  }

  function EventId(threadId: Text, ledger: seq<Event>): Text {
    threadId + [COLON, LETTER_E] + Decimal(|ledger| + 1)
  }

  function Logged(ledger: seq<Event>, threadId: Text): seq<Event> {
    ledger + [Event(EventId(threadId, ledger), threadId)]
  }

  function Exec(s: System, op: Operation): System {
    var chat := s.chat;
    match op
    case Create(id) =>
      s.(chat := chat.(threads := [Thread(id, [])] + chat.threads, ledger := Logged(chat.ledger, id)))
    case Append(id, role, content, status) =>
      s.(chat := chat.(
        threads := UpdateThreads(chat.threads, id, t => Appended(t, role, content, status)),
        ledger := if FindThread(chat.threads, id).Some? then Logged(chat.ledger, id) else chat.ledger))
    case Edit(id, messageId, content, status) =>
      s.(chat := chat.(threads := UpdateThreads(chat.threads, id, t => Edited(t, messageId, content, status))))
    case Compact(id, count) =>
      match FindThread(chat.threads, id)
      case None => s
      case Some(thread) =>
        System(
          chat.(compactStates := chat.compactStates + [Compacted(thread, count)], ledger := Logged(chat.ledger, id)),
          s.takenAt + [(|thread.messages|, count)])
  }

  function Run(s: System, ops: seq<Operation>): System
    decreases |ops|
  {
    if ops == [] then s else Run(Exec(s, ops[0]), ops[1..])
  }

  /** The first thread of an id. */
  ghost predicate ThreadAt(threads: seq<Thread>, id: Text, i: nat) {
    i < |threads| && threads[i].id == id && forall j: nat | j < i :: threads[j].id != id
  }

  lemma {:induction false} FindThreadIsFirst(threads: seq<Thread>, id: Text) returns (i: nat)
    ensures i <= |threads| && forall j: nat | j < i :: threads[j].id != id
    ensures if i == |threads| then FindThread(threads, id).None?
            else ThreadAt(threads, id, i) && FindThread(threads, id) == Some(threads[i])
    decreases |threads|
  {
    i := 0;
    if threads != [] && threads[0].id != id {
      i := FindThreadIsFirst(threads[1..], id);
      assert forall j: nat | 0 < j < i + 1 :: threads[j] == threads[1..][j - 1];
      i := i + 1;
    }
  }

  /** The thread an operation is about is changed as the operation says, and no other thread. */
  lemma ThreadsOutcome(s: System, op: Operation, i: nat)
    requires i < |s.chat.threads|
    ensures var before, after := s.chat.threads, Exec(s, op).chat.threads;
            var mine := before[i].id == op.threadId;
            if op.Create? then
              |after| == |before| + 1 && after[0] == Thread(op.threadId, []) && after[i + 1] == before[i]
            else
              |after| == |before| &&
              after[i] == if op.Append? && mine then Appended(before[i], op.role, op.content, op.status)
                          else if op.Edit? && mine then Edited(before[i], op.messageId, op.content, op.status)
                          else before[i]
  {
    hide Appended, Edited, Compacted, FindThread, Logged;
  }

  /** Every operation but an edit records one event of its thread, if it has one; a compaction of the first thread
      of its id adds a compact state, and nothing else does. */
  lemma RecordsOutcome(s: System, op: Operation)
    ensures var t, found := Exec(s, op), op.Create? || exists i: nat :: ThreadAt(s.chat.threads, op.threadId, i);
            && t.chat.ledger == (if found && !op.Edit? then Logged(s.chat.ledger, op.threadId) else s.chat.ledger)
            && (op.Compact? && found ==>
                  exists i: nat :: ThreadAt(s.chat.threads, op.threadId, i) && t.chat.compactStates ==
                    s.chat.compactStates + [Compacted(s.chat.threads[i], op.count)])
            && (!op.Compact? || !found ==> t.chat.compactStates == s.chat.compactStates)
  {
    var i := FindThreadIsFirst(s.chat.threads, op.threadId);
    hide Compacted, FindThread, Logged, UpdateThreads;
    assert forall j: nat | ThreadAt(s.chat.threads, op.threadId, j) :: j == i;
  }

  /** The index of the last compact state of a thread. */
  function LatestCompact(states: seq<CompactState>, threadId: Text): Option<nat> {
    if states == [] then None
    else if states[|states| - 1].threadId == threadId then Some(|states| - 1)
    else LatestCompact(states[..|states| - 1], threadId)
  }

  lemma {:induction false} LatestCompactIs(states: seq<CompactState>, threadId: Text)
    ensures match LatestCompact(states, threadId)
            case None => forall i: nat | i < |states| :: states[i].threadId != threadId
            case Some(k) =>
              k < |states| && states[k].threadId == threadId
              && forall i: nat | k < i < |states| :: states[i].threadId != threadId
    decreases |states|
  {
    if states != [] && states[|states| - 1].threadId != threadId {
      LatestCompactIs(states[..|states| - 1], threadId);
    }
  }

  /** No other thread has the id of thread i. */
  predicate OnlyOne(threads: seq<Thread>, i: nat) {
    i < |threads| && forall j: nat | j < |threads| && j != i :: threads[j].id != threads[i].id
  }

  ghost predicate Describes(s: System, i: nat, k: nat)
    requires i < |s.chat.threads| && k < |s.chat.compactStates| == |s.takenAt|
  {
    s.chat.compactStates[k].threadId == s.chat.threads[i].id ==>
      TakenAt(s.chat.compactStates[k], s.chat.threads[i], s.takenAt[k].0, s.takenAt[k].1)
  }

  /** The compact state belongs to a thread of the chat. */
  ghost predicate HasThread(threads: seq<Thread>, c: CompactState) {
    exists i: nat :: i < |threads| && threads[i].id == c.threadId
  }

  ghost predicate Consistent(s: System) {
    && |s.takenAt| == |s.chat.compactStates|
    && (forall i: nat | i < |s.chat.threads| :: WellIdentified(s.chat.threads[i]))
    && (forall k: nat | k < |s.chat.compactStates| :: HasThread(s.chat.threads, s.chat.compactStates[k]))
    && (forall i: nat, k: nat | i < |s.chat.threads| && k < |s.chat.compactStates| && OnlyOne(s.chat.threads, i) ::
          Describes(s, i, k))
  }

  /** A thread that is empty, or holds its seed message, as shipped. */
  predicate Unused(thread: Thread) {
    thread.messages == [] || (|thread.messages| == 1 && thread.messages[0].id == thread.id + Literal(":seed-1"))
  }

  /** A chat starts out consistent. */
  lemma StartConsistent(s: System)
    requires forall thread <- s.chat.threads :: Unused(thread)
    requires s.chat.compactStates == [] && s.takenAt == []
    ensures Consistent(s)
  {
    forall i: nat | i < |s.chat.threads| ensures WellIdentified(s.chat.threads[i]) {
      var thread := s.chat.threads[i];
      assert Unused(thread);
      if thread.messages == [] {
        EmptyWellIdentified(thread.id);
        assert thread == Thread(thread.id, []);
      } else {
        SeededWellIdentified(thread.id, thread.messages[0]);
        assert thread == Thread(thread.id, [thread.messages[0]]);
      }
      hide WellIdentified;
    }
  }

  lemma TakenAtSurvivesAppend(
    c: CompactState, thread: Thread, n: nat, count: int, role: Role, content: Text, status: Option<Status>)
    requires TakenAt(c, thread, n, count)
    ensures TakenAt(c, Appended(thread, role, content, status), n, count)
  {
    hide SliceStart;
    StartInRange(n, count);
    var longer := Appended(thread, role, content, status);
    assert longer.messages[SliceStart(n, count)..n] == thread.messages[SliceStart(n, count)..n];
  }

  lemma TakenAtSurvivesEdit(
    c: CompactState, thread: Thread, n: nat, count: int, messageId: Text, content: Text, status: Option<Status>)
    requires TakenAt(c, thread, n, count)
    ensures TakenAt(c, Edited(thread, messageId, content, status), n, count)
  {
    hide SliceStart;
    StartInRange(n, count);
    var edited := Edited(thread, messageId, content, status);
    assert Ids(edited.messages[SliceStart(n, count)..n]) == Ids(thread.messages[SliceStart(n, count)..n]);
  }

  lemma FindThreadIs(threads: seq<Thread>, id: Text)
    ensures match FindThread(threads, id)
            case None => forall i: nat | i < |threads| :: threads[i].id != id
            case Some(t) => t.id == id && exists i: nat :: i < |threads| && threads[i] == t
  {
    var i := FindThreadIsFirst(threads, id);
  }

  lemma ConsistentStep(s: System, op: Operation)
    requires Consistent(s)
    ensures Consistent(Exec(s, op))
  {
    match op
    case Create(id) => CreateConsistent(s, id);
    case Append(id, role, content, status) => AppendConsistent(s, id, role, content, status);
    case Edit(id, messageId, content, status) => EditConsistent(s, id, messageId, content, status);
    case Compact(id, count) => CompactConsistent(s, id, count);
  }

  /** Threads with the same ids in the same places. */
  predicate SameIds(a: seq<Thread>, b: seq<Thread>) {
    |a| == |b| && forall i: nat | i < |a| :: a[i].id == b[i].id
  }

  lemma SameIdsKeep(a: seq<Thread>, b: seq<Thread>, i: nat)
    requires SameIds(a, b)
    ensures OnlyOne(a, i) <==> OnlyOne(b, i)
    ensures forall c: CompactState :: HasThread(a, c) ==> HasThread(b, c)
  {
    forall c: CompactState | HasThread(a, c) ensures HasThread(b, c) {
      var j: nat :| j < |a| && a[j].id == c.threadId;
      assert b[j].id == c.threadId;
    }
  }

  lemma CreateConsistent(s: System, id: Text)
    requires Consistent(s)
    ensures Consistent(Exec(s, Create(id)))
  {
    var t := Exec(s, Create(id));
    EmptyWellIdentified(id);
    hide WellIdentified, TakenAt;
    forall i: nat | i < |t.chat.threads| ensures WellIdentified(t.chat.threads[i]) {
      if i > 0 { assert t.chat.threads[i] == s.chat.threads[i - 1]; }
    }
    forall k: nat | k < |t.chat.compactStates| ensures HasThread(t.chat.threads, t.chat.compactStates[k]) {
      var i: nat :| i < |s.chat.threads| && s.chat.threads[i].id == s.chat.compactStates[k].threadId;
      var next: nat := i + 1;
      assert t.chat.threads[next].id == t.chat.compactStates[k].threadId;
    }
    forall i: nat, k: nat | i < |t.chat.threads| && k < |t.chat.compactStates| && OnlyOne(t.chat.threads, i)
      ensures Describes(t, i, k)
    {
      CreatedDescribes(s, id, i, k);
    }
    hide Describes, HasThread, OnlyOne;
  }

  lemma CreatedDescribes(s: System, id: Text, i: nat, k: nat)
    requires Consistent(s) && i <= |s.chat.threads| && k < |s.chat.compactStates|
    requires OnlyOne([Thread(id, [])] + s.chat.threads, i)
    ensures Describes(Exec(s, Create(id)), i, k)
  {
    hide WellIdentified, TakenAt;
    var threads := [Thread(id, [])] + s.chat.threads;
    if i == 0 {
      assert HasThread(s.chat.threads, s.chat.compactStates[k]);
      var j: nat :| j < |s.chat.threads| && s.chat.threads[j].id == s.chat.compactStates[k].threadId;
      var next: nat := j + 1;
      assert threads[next].id == s.chat.compactStates[k].threadId;
    } else {
      var before: nat := i - 1;
      forall j: nat | j < |s.chat.threads| && j != before ensures s.chat.threads[j].id != s.chat.threads[before].id {
        var next: nat := j + 1;
        assert threads[next].id != threads[i].id;
      }
      assert OnlyOne(s.chat.threads, before);
      assert Describes(s, before, k);
    }
  }

  lemma AppendConsistent(s: System, id: Text, role: Role, content: Text, status: Option<Status>)
    requires Consistent(s)
    ensures Consistent(Exec(s, Append(id, role, content, status)))
  {
    var t := Exec(s, Append(id, role, content, status));
    forall i: nat | i < |t.chat.threads|
      ensures t.chat.threads[i].id == s.chat.threads[i].id && WellIdentified(t.chat.threads[i])
      ensures forall k: nat | k < |s.chat.compactStates| && OnlyOne(s.chat.threads, i) :: Describes(t, i, k)
    {
      AppendKeepsIdentified(s.chat.threads[i], role, content, status);
      hide WellIdentified;
      forall k: nat | k < |s.chat.compactStates| && OnlyOne(s.chat.threads, i) ensures Describes(t, i, k) {
        assert Describes(s, i, k);
        if s.chat.compactStates[k].threadId == s.chat.threads[i].id {
          TakenAtSurvivesAppend(
            s.chat.compactStates[k], s.chat.threads[i], s.takenAt[k].0, s.takenAt[k].1, role, content, status);
        }
      }
    }
    hide WellIdentified, Describes;
    UpdatedConsistent(s, t);
  }

  /** What is left to show of an update that keeps the ids and touches no compact state. */
  lemma UpdatedConsistent(s: System, t: System)
    requires Consistent(s) && SameIds(s.chat.threads, t.chat.threads)
    requires t.takenAt == s.takenAt && t.chat.compactStates == s.chat.compactStates
    requires forall i: nat | i < |t.chat.threads| :: WellIdentified(t.chat.threads[i])
    requires forall i: nat, k: nat | i < |t.chat.threads| && k < |t.chat.compactStates| && OnlyOne(s.chat.threads, i) ::
               Describes(t, i, k)
    ensures Consistent(t)
  {
    hide WellIdentified, Describes, HasThread, OnlyOne, SameIds;
    forall i: nat ensures OnlyOne(t.chat.threads, i) <==> OnlyOne(s.chat.threads, i) {
      SameIdsKeep(s.chat.threads, t.chat.threads, i);
    }
    SameIdsKeep(s.chat.threads, t.chat.threads, 0);
  }

  lemma EditConsistent(s: System, id: Text, messageId: Text, content: Text, status: Option<Status>)
    requires Consistent(s)
    ensures Consistent(Exec(s, Edit(id, messageId, content, status)))
  {
    var t := Exec(s, Edit(id, messageId, content, status));
    forall i: nat | i < |t.chat.threads|
      ensures t.chat.threads[i].id == s.chat.threads[i].id && WellIdentified(t.chat.threads[i])
      ensures forall k: nat | k < |s.chat.compactStates| && OnlyOne(s.chat.threads, i) :: Describes(t, i, k)
    {
      EditKeepsIdentified(s.chat.threads[i], messageId, content, status);
      hide WellIdentified;
      forall k: nat | k < |s.chat.compactStates| && OnlyOne(s.chat.threads, i) ensures Describes(t, i, k) {
        assert Describes(s, i, k);
        if s.chat.compactStates[k].threadId == s.chat.threads[i].id {
          TakenAtSurvivesEdit(
            s.chat.compactStates[k], s.chat.threads[i], s.takenAt[k].0, s.takenAt[k].1, messageId, content, status);
        }
      }
    }
    hide WellIdentified, Describes;
    UpdatedConsistent(s, t);
  }

  lemma CompactConsistent(s: System, id: Text, count: int)
    requires Consistent(s)
    ensures Consistent(Exec(s, Compact(id, count)))
  {
    FindThreadIs(s.chat.threads, id);
    hide FindThread, WellIdentified, TakenAt;
    var found := FindThread(s.chat.threads, id);
    if found.Some? {
      var t := Exec(s, Compact(id, count));
      CompactedTakenNow(found.value, count);
      var last: nat := |s.chat.compactStates|;
      assert t.chat.compactStates[last] == Compacted(found.value, count);
      assert t.chat.compactStates[last].threadId == id;
      var at: nat :| at < |s.chat.threads| && s.chat.threads[at] == found.value;
      hide Compacted;
      forall i: nat, k: nat | i < |t.chat.threads| && k < |t.chat.compactStates| && OnlyOne(t.chat.threads, i)
        ensures Describes(t, i, k)
      {
        if k < last {
          assert Describes(s, i, k);
        } else if s.chat.threads[i].id == id {
          assert i == at;
        }
      }
      forall k: nat | k < |t.chat.compactStates| ensures HasThread(t.chat.threads, t.chat.compactStates[k]) {
        if k == last {
          assert t.chat.threads[at].id == id;
        }
      }
      hide Describes, HasThread;
    }
  }

  lemma {:induction false} ConsistentForever(s: System, ops: seq<Operation>)
    requires Consistent(s)
    ensures Consistent(Run(s, ops))
    decreases |ops|
  {
    hide Exec;
    hide Consistent;
    if ops != [] {
      ConsistentStep(s, ops[0]);
      ConsistentForever(Exec(s, ops[0]), ops[1..]);
    }
  }

  /** In every run of creations, appends, edits and compactions of any threads, the prompt of a thread with
      its latest compact state is the plain prompt of the thread cut where that compaction's preserved
      messages begin - unless another thread was created with its id. */
  lemma PromptInRun(s: System, ops: seq<Operation>, i: nat)
    requires Consistent(s) && OnlyOne(Run(s, ops).chat.threads, i)
    ensures var t := Run(s, ops);
            var thread := t.chat.threads[i];
            match LatestCompact(t.chat.compactStates, thread.id)
            case None => true
            case Some(k) =>
              && k < |t.takenAt| && k < |t.chat.compactStates|
              && var start := SliceStart(t.takenAt[k].0, t.takenAt[k].1);
                 start <= |thread.messages|
                 && PromptMessages(thread, Some(t.chat.compactStates[k])) ==
                    PromptMessages(CutThread(thread, start), None)
  {
    ConsistentForever(s, ops);
    var t := Run(s, ops);
    var thread := t.chat.threads[i];
    LatestCompactIs(t.chat.compactStates, thread.id);
    var latest := LatestCompact(t.chat.compactStates, thread.id);
    hide Run;
    hide LatestCompact;
    hide WellIdentified;
    hide PromptMessages;
    if latest.Some? {
      assert Describes(t, i, latest.value);
      hide TakenAt;
      CompactedPrompt(thread, t.chat.compactStates[latest.value], t.takenAt[latest.value].0, t.takenAt[latest.value].1);
    }
  }

  // ----- the ledger -----

  ghost predicate NumberedLedger(ledger: seq<Event>) {
    forall i: nat | i < |ledger| :: ledger[i].id == ledger[i].threadId + [COLON, LETTER_E] + Decimal(i + 1)
  }

  /** The ledger after events of these threads, whatever actions they record. */
  function Recorded(ledger: seq<Event>, threadIds: seq<Text>): seq<Event>
    decreases |threadIds|
  {
    if threadIds == [] then ledger else Recorded(Logged(ledger, threadIds[0]), threadIds[1..])
  }

  lemma {:induction false} LedgerNumbered(ledger: seq<Event>, threadIds: seq<Text>)
    requires NumberedLedger(ledger)
    ensures NumberedLedger(Recorded(ledger, threadIds)) && ledger <= Recorded(ledger, threadIds)
    ensures |Recorded(ledger, threadIds)| == |ledger| + |threadIds|
    decreases |threadIds|
  {
    hide Decimal;
    if threadIds != [] {
      LedgerNumbered(Logged(ledger, threadIds[0]), threadIds[1..]);
    }
  }

  /** Event ids are unique over the whole ledger, across threads and across restarts with a saved ledger,
      whatever the application records in it. */
  lemma LedgerIdsDistinct(ledger: seq<Event>, threadIds: seq<Text>, i: nat, j: nat)
    requires NumberedLedger(ledger) && i < j < |Recorded(ledger, threadIds)|
    ensures Recorded(ledger, threadIds)[i].id != Recorded(ledger, threadIds)[j].id
  {
    LedgerNumbered(ledger, threadIds);
    var all := Recorded(ledger, threadIds);
    hide Recorded;
    var a, b := all[i].threadId, all[j].threadId;
    assert a + [COLON, LETTER_E] + Decimal(i + 1) == (a + [COLON]) + [LETTER_E] + Decimal(i + 1);
    assert b + [COLON, LETTER_E] + Decimal(j + 1) == (b + [COLON]) + [LETTER_E] + Decimal(j + 1);
    if all[i].id == all[j].id {
      NumberedNamesInjective(a + [COLON], LETTER_E, i + 1, b + [COLON], LETTER_E, j + 1);
    }
  }

  /** The ledger of a run holds one event for every creation, append and compaction of a known thread. */
  lemma {:induction false} RunRecords(s: System, ops: seq<Operation>) returns (threadIds: seq<Text>)
    ensures Run(s, ops).chat.ledger == Recorded(s.chat.ledger, threadIds)
    decreases |ops|
  {
    if ops == [] {
      threadIds := [];
    } else {
      var t := Exec(s, ops[0]);
      hide UpdateThreads, Compacted, EventId;
      var logged := t.chat.ledger == Logged(s.chat.ledger, ops[0].threadId);
      assert logged || t.chat.ledger == s.chat.ledger;
      hide Exec, Logged;
      var rest := RunRecords(t, ops[1..]);
      threadIds := if logged then [ops[0].threadId] + rest else rest;
      assert logged ==> threadIds[0] == ops[0].threadId && threadIds[1..] == rest;
    }
  }

  // ----- the checksum of a compact state -----

  lemma DigestLineEdit(message: Message, p: nat, c: CodeUnit) returns (at: nat)
    requires p < |message.content|
    ensures at < |DigestLine(message)| && DigestLine(message)[at] == message.content[p]
    ensures DigestLine(message.(content := message.content[p := c])) == DigestLine(message)[at := c]
  {
    hide RoleName;
    var head := message.id + [COLON] + RoleName(message.role) + [COLON];
    at := |head| + p;
    assert DigestLine(message) == head + message.content;
    assert DigestLine(message.(content := message.content[p := c])) == head + message.content[p := c];
  }

  lemma {:induction false} DigestEdit(messages: seq<Message>, i: nat, p: nat, c: CodeUnit) returns (at: nat)
    requires i < |messages| && p < |messages[i].content|
    ensures var edited := messages[i := messages[i].(content := messages[i].content[p := c])];
            at < |Digest(messages)| && Digest(messages)[at] == messages[i].content[p]
            && Digest(edited) == Digest(messages)[at := c]
    decreases |messages|
  {
    hide DigestLine;
    var edited := messages[i := messages[i].(content := messages[i].content[p := c])];
    if i == 0 {
      at := DigestLineEdit(messages[0], p, c);
      assert edited[1..] == messages[1..];
    } else {
      var rest := DigestEdit(messages[1..], i - 1, p, c);
      at := |DigestLine(messages[0])| + 1 + rest;
      assert edited[0] == messages[0];
      assert edited[1..] == messages[1..][i - 1 := edited[i]];
    }
  }

  /** Editing one code unit of one message changes the checksum the compaction records. */
  lemma CompactionNoticesEdit(thread: Thread, count: int, i: nat, p: nat, c: CodeUnit)
    requires i < |thread.messages| && p < |thread.messages[i].content| && thread.messages[i].content[p] != c
    ensures var message := thread.messages[i];
            var edited := thread.(messages := thread.messages[i := message.(content := message.content[p := c])]);
            Compacted(edited, count).checksum != Compacted(thread, count).checksum
  {
    var at := DigestEdit(thread.messages, i, p, c);
    Checksum.ChecksumSensitive(Digest(thread.messages), at, c);
  }
}
