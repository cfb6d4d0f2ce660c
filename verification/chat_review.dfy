/** The review screen's state machine: loading a transcript, moving between
    messages and conversations, confirming a category's label and stepping
    the focus through the categories, and flattening the labelled messages
    for export. */
module ChatReview {
  import opened ChatTypes
  import opened Sequences
  import CsvParser

  /** The screen's state. `conversation` is a snapshot taken when the
      conversation was entered: confirming a label updates `messages` but not
      this snapshot. `index` is the message index within it and `focus` the
      focused category index. `selections` is the label map shown for the
      current message, and `error` the load error on display. */
  datatype Review = Review(
    messages: seq<Message>,
    conversationIds: seq<string>,
    conversationIndex: int,
    conversation: seq<Message>,
    index: int,
    focus: int,
    selections: map<string, LabelValue>,
    error: Option<string>)

  const Start: Review := Review([], [], 0, [], 0, 0, map[], None)

  function ConversationIdsOf(ms: seq<Message>): seq<string>
  {
    seq(|ms|, i requires 0 <= i < |ms| => ms[i].conversationId)
  }

  /** `messages.filter(msg => msg.conversationID === id)`. */
  function InConversation(ms: seq<Message>, id: string): (r: seq<Message>)
    ensures |r| <= |ms|
  {
    if ms == [] then []
    else if ms[0].conversationId == id then [ms[0]] + InConversation(ms[1..], id)
    else InConversation(ms[1..], id)
  }

  /** The filter keeps exactly the messages of conversation `id`. */
  lemma {:induction false} InConversationMembers(ms: seq<Message>, id: string)
    ensures forall m :: m in InConversation(ms, id) <==> m in ms && m.conversationId == id
  {
    if ms != [] {
      InConversationMembers(ms[1..], id);
      assert forall m :: m in ms <==> m == ms[0] || m in ms[1..];
    }
  }

  /** Filtering distributes over concatenation, so a conversation lists its
      messages in load order. */
  lemma {:induction false} InConversationAppend(a: seq<Message>, b: seq<Message>, id: string)
    ensures InConversation(a + b, id) == InConversation(a, id) + InConversation(b, id)
  {
    if a == [] {
      assert a + b == b;
    } else {
      assert (a + b)[1..] == a[1..] + b;
      InConversationAppend(a[1..], b, id);
      if a[0].conversationId == id {
        assert InConversation(a + b, id) == [a[0]] + InConversation(a[1..] + b, id);
      }
    }
  }

  lemma InConversationNonEmpty(ms: seq<Message>, id: string)
    requires id in ConversationIdsOf(ms)
    ensures |InConversation(ms, id)| > 0
  {
    var i :| 0 <= i < |ms| && ConversationIdsOf(ms)[i] == id;
    InConversationMembers(ms, id);
    assert ms[i] in InConversation(ms, id);
  }

  /** A message with its labels dropped: what the snapshot still shares with
      the live message list after labels are confirmed. */
  function Unlabelled(m: Message): Message
  {
    m.(labels := map[])
  }

  function Skeleton(ms: seq<Message>): (r: seq<Message>)
    ensures |r| == |ms|
  {
    seq(|ms|, i requires 0 <= i < |ms| => Unlabelled(ms[i]))
  }

  /** Dropping labels commutes with selecting a conversation. */
  lemma {:induction false} SkeletonOfConversation(ms: seq<Message>, id: string)
    ensures Skeleton(InConversation(ms, id)) == InConversation(Skeleton(ms), id)
  {
    if ms != [] {
      var rest := ms[1..];
      SkeletonOfConversation(rest, id);
      SkeletonCons(ms);
      if ms[0].conversationId == id {
        SkeletonPrepend(ms[0], InConversation(rest, id));
      }
    }
  }

  lemma SkeletonCons(ms: seq<Message>)
    requires ms != []
    ensures Skeleton(ms) == [Unlabelled(ms[0])] + Skeleton(ms[1..])
  {
  }

  lemma SkeletonPrepend(m: Message, ms: seq<Message>)
    ensures Skeleton([m] + ms) == [Unlabelled(m)] + Skeleton(ms)
  {
  }

  predicate HasCurrent(s: Review)
  {
    0 <= s.index < |s.conversation|
  }

  /** `currentConversation[currentIndex]`. */
  function Current(s: Review): Message
    requires HasCurrent(s)
  {
    s.conversation[s.index]
  }

  /** The message-change effect: when a message is shown, focus returns to
      the first category and the shown labels are that message's. */
  function ResetFocus(s: Review): (r: Review)
    ensures HasCurrent(s) ==> r == s.(focus := 0, selections := Current(s).labels)
    ensures !HasCurrent(s) ==> r == s
  {
    if HasCurrent(s) then s.(focus := 0, selections := Current(s).labels) else s
  }

  predicate Moved(before: Review, after: Review)
  {
    before.conversationIndex != after.conversationIndex || before.index != after.index
  }

  /** The effect runs when the current message changes. Within a snapshot
      each position holds a distinct message, and distinct conversations hold
      distinct messages, so the message changes exactly when the position
      does. */
  function Settle(before: Review, after: Review): (r: Review)
    ensures r.(focus := after.focus, selections := after.selections) == after
    ensures !Moved(before, after) ==> r == after
    ensures Moved(before, after) && HasCurrent(after) ==>
              r.focus == 0 && r.selections == Current(after).labels
    ensures Moved(before, after) && !HasCurrent(after) ==> r == after
  {
    if Moved(before, after) then ResetFocus(after) else after
  }

  /** `handleFileUpload` after a successful parse. Every message object is
      new, so the message-change effect runs whenever a message exists. */
  function Load(s: Review, parsed: seq<Message>): (r: Review)
    ensures r.messages == parsed && r.conversationIndex == 0 && r.index == 0 && r.error.None?
    ensures r.conversationIds == Distinct(ConversationIdsOf(parsed))
    ensures parsed == [] ==> r.conversation == [] && r.focus == s.focus && r.selections == s.selections
    ensures parsed != [] ==>
              && |r.conversationIds| > 0
              && r.conversation == InConversation(parsed, r.conversationIds[0])
              && |r.conversation| > 0
              && r.focus == 0 && r.selections == r.conversation[0].labels
  {
    var ids := Distinct(ConversationIdsOf(parsed));
    var conversation := if ids == [] then [] else InConversation(parsed, ids[0]);
    FirstConversationNonEmpty(parsed);
    ResetFocus(Review(parsed, ids, 0, conversation, 0, s.focus, s.selections, None))
  }

  lemma FirstConversationNonEmpty(parsed: seq<Message>)
    ensures parsed != [] ==>
              |Distinct(ConversationIdsOf(parsed))| > 0 &&
              |InConversation(parsed, Distinct(ConversationIdsOf(parsed))[0])| > 0
  {
    if parsed != [] {
      var ids := Distinct(ConversationIdsOf(parsed));
      DistinctElements(ConversationIdsOf(parsed));
      assert ConversationIdsOf(parsed)[0] in ids;
      InConversationNonEmpty(parsed, ids[0]);
    }
  }

  /** The conversation ids after a load are duplicate-free and in the order
      in which each id first occurs among the loaded rows; the current
      conversation is the first one, in load order. */
  lemma LoadConversationOrder(s: Review, parsed: seq<Message>)
    ensures var r := Load(s, parsed);
            && NoDup(r.conversationIds)
            && (forall id :: id in r.conversationIds <==> id in ConversationIdsOf(parsed))
            && (forall i, j :: 0 <= i < j < |r.conversationIds| ==>
                  FirstIndex(ConversationIdsOf(parsed), r.conversationIds[i])
                    < FirstIndex(ConversationIdsOf(parsed), r.conversationIds[j]))
            && (forall m :: m in r.conversation <==> m in parsed && m.conversationId == r.conversationIds[0])
  {
    DistinctNoDup(ConversationIdsOf(parsed));
    DistinctElements(ConversationIdsOf(parsed));
    DistinctFirstOccurrenceOrder(ConversationIdsOf(parsed));
    if parsed != [] {
      InConversationMembers(parsed, Load(s, parsed).conversationIds[0]);
    }
  }

  /** `handleFileUpload`: a failed parse only shows its error; a successful
      one clears it and loads. */
  function Upload(s: Review, result: Result<seq<Message>, CsvParser.LoadError>): (r: Review)
    ensures result.Failure? ==> r == s.(error := Some(CsvParser.ErrorText(result.error)))
    ensures result.Success? ==> r == Load(s, result.value)
  {
    match result
    case Failure(e) => s.(error := Some(CsvParser.ErrorText(e)))
    case Success(parsed) => Load(s, parsed)
  }

  /** `goToPreviousMessage`: one message back, never below 0. */
  function PreviousMessage(s: Review): (r: Review)
    ensures r.index == if s.index > 0 then s.index - 1 else 0
    ensures r.(index := s.index, focus := s.focus, selections := s.selections) == s
    ensures r.index != s.index && HasCurrent(r) ==> r.focus == 0 && r.selections == Current(r).labels
    ensures !HasCurrent(r) ==> r.focus == s.focus && r.selections == s.selections
    ensures r.index == s.index ==> r == s
  {
    Settle(s, s.(index := if s.index - 1 < 0 then 0 else s.index - 1))
  }

  /** `goToNextMessage`: one message forward, never past the last one. */
  function NextMessage(s: Review): (r: Review)
    ensures r.index <= |s.conversation| - 1
    ensures 0 <= s.index < |s.conversation| ==> 0 <= r.index < |s.conversation| && r.index >= s.index
    ensures r.index == Min(|s.conversation| - 1, s.index + 1)
    ensures r.(index := s.index, focus := s.focus, selections := s.selections) == s
    ensures r.index != s.index && HasCurrent(r) ==> r.focus == 0 && r.selections == Current(r).labels
    ensures !HasCurrent(r) ==> r.focus == s.focus && r.selections == s.selections
    ensures r.index == s.index ==> r == s
  {
    var last := |s.conversation| - 1;
    Settle(s, s.(index := if last < s.index + 1 then last else s.index + 1))
  }

  /** `goToPreviousConversation`: nothing at the first conversation; else one
      conversation back, rebuilt from the message list, at its first message. */
  function PreviousConversation(s: Review): (r: Review)
    requires 0 <= s.conversationIndex <= |s.conversationIds|
    ensures s.conversationIndex == 0 ==> r == s
    ensures s.conversationIndex > 0 ==>
              && r.conversationIndex == s.conversationIndex - 1
              && r.conversation == InConversation(s.messages, s.conversationIds[s.conversationIndex - 1])
              && r.index == 0
              && r.messages == s.messages && r.conversationIds == s.conversationIds
    ensures r.(conversationIndex := s.conversationIndex, conversation := s.conversation,
               index := s.index, focus := s.focus, selections := s.selections) == s
    ensures s.conversationIndex > 0 && HasCurrent(r) ==> r.focus == 0 && r.selections == Current(r).labels
    ensures s.conversationIndex > 0 && !HasCurrent(r) ==> r.focus == s.focus && r.selections == s.selections
  {
    if s.conversationIndex > 0 then
      var j := s.conversationIndex - 1;
      Settle(s, s.(conversationIndex := j,
                   conversation := InConversation(s.messages, s.conversationIds[j]),
                   index := 0))
    else s
  }

  /** `goToNextConversation`: nothing at the last conversation; else one
      conversation forward, rebuilt from the message list, at its first message. */
  function NextConversation(s: Review): (r: Review)
    requires 0 <= s.conversationIndex
    ensures s.conversationIndex >= |s.conversationIds| - 1 ==> r == s
    ensures s.conversationIndex < |s.conversationIds| - 1 ==>
              && r.conversationIndex == s.conversationIndex + 1
              && r.conversation == InConversation(s.messages, s.conversationIds[s.conversationIndex + 1])
              && r.index == 0
              && r.messages == s.messages && r.conversationIds == s.conversationIds
    ensures r.(conversationIndex := s.conversationIndex, conversation := s.conversation,
               index := s.index, focus := s.focus, selections := s.selections) == s
    ensures s.conversationIndex < |s.conversationIds| - 1 && HasCurrent(r) ==>
              r.focus == 0 && r.selections == Current(r).labels
    ensures s.conversationIndex < |s.conversationIds| - 1 && !HasCurrent(r) ==>
              r.focus == s.focus && r.selections == s.selections
  {
    if s.conversationIndex < |s.conversationIds| - 1 then
      var j := s.conversationIndex + 1;
      Settle(s, s.(conversationIndex := j,
                   conversation := InConversation(s.messages, s.conversationIds[j]),
                   index := 0))
    else s
  }

  /** `handleScrubChange`: a jump to a position the range control offers. */
  function Scrub(s: Review, position: int): (r: Review)
    requires 0 <= position < |s.conversation|
    ensures r.index == position && HasCurrent(r)
    ensures r.(index := s.index, focus := s.focus, selections := s.selections) == s
    ensures position != s.index ==> r.focus == 0 && r.selections == Current(r).labels
    ensures position == s.index ==> r == s
  {
    Settle(s, s.(index := position))
  }

  /** The window key listener: Tab and Shift+Tab step between messages when
      not at the end they move towards, the arrow keys between conversations. */
  function NavKey(s: Review, code: string, shift: bool, repeat: bool): (r: Review)
    requires 0 <= s.conversationIndex <= |s.conversationIds|
    ensures code == "Tab" && !repeat && shift && s.index > 0 ==> r == PreviousMessage(s)
    ensures code == "Tab" && !repeat && !shift && s.index < |s.conversation| - 1 ==> r == NextMessage(s)
    ensures code == "ArrowLeft" ==> r == PreviousConversation(s)
    ensures code == "ArrowRight" ==> r == NextConversation(s)
    ensures code != "Tab" && code != "ArrowLeft" && code != "ArrowRight" ==> r == s
    ensures code == "Tab" && repeat ==> r == s
    ensures code == "Tab" && shift && s.index <= 0 ==> r == s
    ensures code == "Tab" && !shift && s.index >= |s.conversation| - 1 ==> r == s
    ensures code == "Tab" ==> 0 <= s.index < |s.conversation| ==> HasCurrent(r)
  {
    if code == "Tab" && !repeat then
      if shift && s.index > 0 then PreviousMessage(s)
      else if !shift && s.index < |s.conversation| - 1 then NextMessage(s)
      else s
    else if code == "ArrowLeft" then PreviousConversation(s)
    else if code == "ArrowRight" then NextConversation(s)
    else s
  }

  /** The messages a confirm writes to: same conversation and same time as
      the current one. */
  predicate SameMessage(m: Message, cur: Message)
  {
    m.conversationId == cur.conversationId && m.messageTime == cur.messageTime
  }

  /** Writing `selection` under `category` into every message matching `cur`;
      no other message and no other label changes. */
  function ApplyLabel(ms: seq<Message>, cur: Message, category: string, selection: LabelValue)
    : (r: seq<Message>)
    ensures |r| == |ms|
    ensures forall i :: 0 <= i < |ms| ==> r[i].(labels := ms[i].labels) == ms[i]
    ensures forall i :: 0 <= i < |ms| && !SameMessage(ms[i], cur) ==> r[i] == ms[i]
    ensures forall i :: 0 <= i < |ms| && SameMessage(ms[i], cur) ==>
              && category in r[i].labels && r[i].labels[category] == selection
              && r[i].labels.Keys == ms[i].labels.Keys + {category}
              && (forall k :: k in ms[i].labels && k != category ==> r[i].labels[k] == ms[i].labels[k])
  {
    seq(|ms|, i requires 0 <= i < |ms| =>
      if SameMessage(ms[i], cur) then ms[i].(labels := ms[i].labels[category := selection]) else ms[i])
  }

  lemma ApplyLabelKeepsSkeleton(ms: seq<Message>, cur: Message, category: string, selection: LabelValue)
    ensures Skeleton(ApplyLabel(ms, cur, category, selection)) == Skeleton(ms)
    ensures ConversationIdsOf(ApplyLabel(ms, cur, category, selection)) == ConversationIdsOf(ms)
  {
  }

  /** Another conversation is untouched by a confirm, so rebuilding it from
      the list as it was before the confirm gives the same messages as
      rebuilding it from the list after. */
  lemma {:induction false} OtherConversationUntouched(ms: seq<Message>, cur: Message, category: string,
                                                      selection: LabelValue, id: string)
    requires id != cur.conversationId
    ensures InConversation(ApplyLabel(ms, cur, category, selection), id) == InConversation(ms, id)
  {
    if ms != [] {
      var applied := ApplyLabel(ms, cur, category, selection);
      assert applied[1..] == ApplyLabel(ms[1..], cur, category, selection);
      OtherConversationUntouched(ms[1..], cur, category, selection, id);
    }
  }

  /** `moveToNextMessageOrConversation`: the next message of the snapshot,
      else the first message of the next conversation, rebuilt from `source`
      (the message list the handler closed over); at the last message of the
      last conversation nothing moves. Focus returns to 0 when it moves. */
  function MoveToNext(s: Review, source: seq<Message>): (r: Review)
    requires 0 <= s.conversationIndex
    ensures s.index < |s.conversation| - 1 ==>
              r.index == s.index + 1 && r.conversationIndex == s.conversationIndex &&
              r.conversation == s.conversation && r.focus == 0
    ensures s.index >= |s.conversation| - 1 && s.conversationIndex < |s.conversationIds| - 1 ==>
              && r.conversationIndex == s.conversationIndex + 1 && r.index == 0 && r.focus == 0
              && r.conversation == InConversation(source, s.conversationIds[s.conversationIndex + 1])
    ensures s.index >= |s.conversation| - 1 && s.conversationIndex >= |s.conversationIds| - 1 ==> r == s
    ensures r.(conversationIndex := s.conversationIndex, conversation := s.conversation,
               index := s.index, focus := s.focus) == s
  {
    if s.index < |s.conversation| - 1 then
      s.(index := s.index + 1, focus := 0)
    else if s.conversationIndex < |s.conversationIds| - 1 then
      var j := s.conversationIndex + 1;
      s.(conversationIndex := j, conversation := InConversation(source, s.conversationIds[j]),
         index := 0, focus := 0)
    else s
  }

  /** `handleCategorySelectionConfirmed`: the label is written into the shown
      selections and into every matching message; focus moves to the next
      category of the sender's list (advertiser list for "advertiser", bot
      list otherwise), or past the last one to the next message or
      conversation. */
  function Confirm(s: Review, advCats: seq<string>, botCats: seq<string>,
                   category: string, selection: LabelValue): (r: Review)
    requires HasCurrent(s) && 0 <= s.conversationIndex
    ensures r.messages == ApplyLabel(s.messages, Current(s), category, selection)
    ensures r.conversationIds == s.conversationIds && r.error == s.error
    ensures s.focus + 1 < |CategoriesFor(Current(s).sender, advCats, botCats)| ==>
              r == s.(messages := r.messages, focus := s.focus + 1,
                      selections := s.selections[category := selection])
    ensures && s.focus + 1 >= |CategoriesFor(Current(s).sender, advCats, botCats)|
            && s.index >= |s.conversation| - 1 && s.conversationIndex >= |s.conversationIds| - 1 ==>
              r == s.(messages := r.messages, selections := s.selections[category := selection])
  {
    var cur := Current(s);
    var labelled := s.(messages := ApplyLabel(s.messages, cur, category, selection),
                       selections := s.selections[category := selection]);
    if s.focus + 1 < |CategoriesFor(cur.sender, advCats, botCats)| then
      labelled.(focus := s.focus + 1)
    else
      Settle(labelled, MoveToNext(labelled, s.messages))
  }

  /** `handleMoveToPreviousCategory`: focus moves down one, never below 0;
      nothing stored changes. */
  function Back(s: Review): (r: Review)
    ensures r.focus == if s.focus > 0 then s.focus - 1 else 0
    ensures r.(focus := s.focus) == s
  {
    s.(focus := if s.focus - 1 < 0 then 0 else s.focus - 1)
  }

  /** The cursor invariant every reachable state keeps: the conversation ids
      are the deduplicated ids of the messages; a loaded transcript has a
      current conversation, whose snapshot agrees with the message list up to
      labels, and a current message; and focus indexes into the current
      sender's categories. With nothing loaded the next-message step can set
      the index to -1 (the last index of an empty conversation). */
  predicate Valid(s: Review, advCats: seq<string>, botCats: seq<string>)
  {
    && s.conversationIds == Distinct(ConversationIdsOf(s.messages))
    && s.focus >= 0
    && (s.messages == [] ==> s.conversation == [] && s.conversationIndex == 0 && -1 <= s.index <= 0)
    && (s.messages != [] ==>
          && 0 <= s.conversationIndex < |s.conversationIds|
          && Skeleton(s.conversation)
               == Skeleton(InConversation(s.messages, s.conversationIds[s.conversationIndex]))
          && HasCurrent(s))
    && (HasCurrent(s) ==> s.focus == 0 || s.focus < |CategoriesFor(Current(s).sender, advCats, botCats)|)
  }

  lemma StartValid(advCats: seq<string>, botCats: seq<string>)
    ensures Valid(Start, advCats, botCats)
  {
  }

  /** Every id in the list has a non-empty conversation. */
  lemma ConversationOfListedId(ms: seq<Message>, j: int)
    requires 0 <= j < |Distinct(ConversationIdsOf(ms))|
    ensures |InConversation(ms, Distinct(ConversationIdsOf(ms))[j])| > 0
  {
    DistinctElements(ConversationIdsOf(ms));
    InConversationNonEmpty(ms, Distinct(ConversationIdsOf(ms))[j]);
  }

  /** The current message belongs to the current conversation. */
  lemma CurrentInConversation(s: Review, advCats: seq<string>, botCats: seq<string>)
    requires Valid(s, advCats, botCats) && HasCurrent(s)
    ensures s.messages != [] && Current(s).conversationId == s.conversationIds[s.conversationIndex]
  {
    var id := s.conversationIds[s.conversationIndex];
    var f := InConversation(s.messages, id);
    assert Unlabelled(Current(s)) == Skeleton(s.conversation)[s.index] == Unlabelled(f[s.index]);
    InConversationMembers(s.messages, id);
    assert f[s.index] in f;
  }

  /** After a confirm the snapshot still agrees with the message list, and the
      list still has the same conversation ids. */
  lemma ConfirmKeepsSnapshot(ms: seq<Message>, cur: Message, category: string,
                             selection: LabelValue, id: string)
    ensures Skeleton(InConversation(ApplyLabel(ms, cur, category, selection), id))
         == Skeleton(InConversation(ms, id))
  {
    ApplyLabelKeepsSkeleton(ms, cur, category, selection);
    SkeletonOfConversation(ms, id);
    SkeletonOfConversation(ApplyLabel(ms, cur, category, selection), id);
  }

  /** The label write of a confirm keeps the invariant. */
  lemma LabelWriteValid(s: Review, advCats: seq<string>, botCats: seq<string>,
                        category: string, selection: LabelValue)
    requires Valid(s, advCats, botCats) && HasCurrent(s)
    ensures Valid(s.(messages := ApplyLabel(s.messages, Current(s), category, selection),
                     selections := s.selections[category := selection]), advCats, botCats)
  {
    var cur := Current(s);
    ApplyLabelKeepsSkeleton(s.messages, cur, category, selection);
    ConfirmKeepsSnapshot(s.messages, cur, category, selection, s.conversationIds[s.conversationIndex]);
  }

  /** Moving on after the last category keeps the invariant, when the list
      the handler closed over agrees with the current one up to labels. */
  lemma MoveToNextValid(t: Review, advCats: seq<string>, botCats: seq<string>, source: seq<Message>)
    requires Valid(t, advCats, botCats) && HasCurrent(t)
    requires Skeleton(source) == Skeleton(t.messages)
    ensures Valid(Settle(t, MoveToNext(t, source)), advCats, botCats)
  {
    if t.index < |t.conversation| - 1 {
      NextMessageStepValid(t, advCats, botCats, source);
    } else if t.conversationIndex < |t.conversationIds| - 1 {
      NextConversationStepValid(t, advCats, botCats, source);
    } else {
      assert MoveToNext(t, source) == t;
    }
  }

  /** The first branch of moving on: the next message of the snapshot. */
  lemma NextMessageStepValid(t: Review, advCats: seq<string>, botCats: seq<string>, source: seq<Message>)
    requires Valid(t, advCats, botCats) && 0 <= t.index < |t.conversation| - 1
    ensures Valid(Settle(t, MoveToNext(t, source)), advCats, botCats)
  {
    var u := t.(index := t.index + 1, focus := 0);
    assert MoveToNext(t, source) == u && Moved(t, u);
    assert Settle(t, u) == u.(selections := u.conversation[u.index].labels);
  }

  /** Lists that agree up to labels select conversations that agree up to
      labels. */
  lemma SameSkeletonSameConversation(a: seq<Message>, b: seq<Message>, id: string)
    requires Skeleton(a) == Skeleton(b)
    ensures Skeleton(InConversation(a, id)) == Skeleton(InConversation(b, id))
    ensures |InConversation(a, id)| == |InConversation(b, id)|
  {
    SkeletonOfConversation(a, id);
    SkeletonOfConversation(b, id);
  }

  /** A state at the first message of a listed, non-empty conversation whose
      snapshot agrees with the list up to labels, with focus 0, is valid. */
  lemma ValidAtConversationStart(w: Review, advCats: seq<string>, botCats: seq<string>)
    requires w.conversationIds == Distinct(ConversationIdsOf(w.messages))
    requires 0 <= w.conversationIndex < |w.conversationIds|
    requires w.messages != [] && |w.conversation| > 0 && w.index == 0 && w.focus == 0
    requires Skeleton(w.conversation) == Skeleton(InConversation(w.messages, w.conversationIds[w.conversationIndex]))
    ensures Valid(w, advCats, botCats)
  {
  }

  /** The second branch of moving on: the next conversation, filtered from
      the list the handler closed over. */
  lemma NextConversationStepValid(t: Review, advCats: seq<string>, botCats: seq<string>, source: seq<Message>)
    requires t.conversationIds == Distinct(ConversationIdsOf(t.messages))
    requires 0 <= t.conversationIndex < |t.conversationIds| - 1
    requires t.index >= |t.conversation| - 1
    requires Skeleton(source) == Skeleton(t.messages)
    ensures Valid(Settle(t, MoveToNext(t, source)), advCats, botCats)
  {
    var j := t.conversationIndex + 1;
    var id := t.conversationIds[j];
    var c := InConversation(source, id);
    SameSkeletonSameConversation(source, t.messages, id);
    ConversationOfListedId(t.messages, j);
    var u := t.(conversationIndex := j, conversation := c, index := 0, focus := 0);
    assert MoveToNext(t, source) == u && Moved(t, u);
    var w := u.(selections := c[0].labels);
    assert Settle(t, u) == w;
    ValidAtConversationStart(w, advCats, botCats);
  }

  lemma ConfirmValid(s: Review, advCats: seq<string>, botCats: seq<string>,
                     category: string, selection: LabelValue)
    requires Valid(s, advCats, botCats) && HasCurrent(s)
    ensures Valid(Confirm(s, advCats, botCats, category, selection), advCats, botCats)
  {
    var cur := Current(s);
    var t := s.(messages := ApplyLabel(s.messages, cur, category, selection),
                selections := s.selections[category := selection]);
    LabelWriteValid(s, advCats, botCats, category, selection);
    if s.focus + 1 >= |CategoriesFor(cur.sender, advCats, botCats)| {
      ApplyLabelKeepsSkeleton(s.messages, cur, category, selection);
      MoveToNextValid(t, advCats, botCats, s.messages);
    }
  }

  /** The events the screen reacts to. */
  datatype Event =
    | Uploaded(result: Result<seq<Message>, CsvParser.LoadError>)
    | PreviousMessageClicked
    | NextMessageClicked
    | PreviousConversationClicked
    | NextConversationClicked
    | Scrubbed(position: int)
    | KeyPressed(code: string, shift: bool, repeat: bool)
    | Confirmed(category: string, selection: LabelValue)
    | MovedBack

  /** When an event can occur: the scrubber offers only positions of the
      current conversation, and a category can be confirmed only while a
      message is shown. */
  predicate Enabled(s: Review, e: Event)
  {
    && 0 <= s.conversationIndex <= |s.conversationIds|
    && (e.Scrubbed? ==> 0 <= e.position < |s.conversation|)
    && (e.Confirmed? ==> HasCurrent(s))
  }

  function Step(s: Review, advCats: seq<string>, botCats: seq<string>, e: Event): Review
    requires Enabled(s, e)
  {
    match e
    case Uploaded(result) => Upload(s, result)
    case PreviousMessageClicked => PreviousMessage(s)
    case NextMessageClicked => NextMessage(s)
    case PreviousConversationClicked => PreviousConversation(s)
    case NextConversationClicked => NextConversation(s)
    case Scrubbed(position) => Scrub(s, position)
    case KeyPressed(code, shift, repeat) => NavKey(s, code, shift, repeat)
    case Confirmed(category, selection) => Confirm(s, advCats, botCats, category, selection)
    case MovedBack => Back(s)
  }

  lemma ConversationStepValid(s: Review, advCats: seq<string>, botCats: seq<string>, j: int)
    requires Valid(s, advCats, botCats) && 0 <= j < |s.conversationIds|
    ensures var t := s.(conversationIndex := j,
                        conversation := InConversation(s.messages, s.conversationIds[j]), index := 0);
            Valid(ResetFocus(t), advCats, botCats)
  {
    ConversationOfListedId(s.messages, j);
  }

  lemma LoadValid(s: Review, advCats: seq<string>, botCats: seq<string>, parsed: seq<Message>)
    requires Valid(s, advCats, botCats)
    ensures Valid(Load(s, parsed), advCats, botCats)
  {
  }

  lemma PreviousConversationValid(s: Review, advCats: seq<string>, botCats: seq<string>)
    requires Valid(s, advCats, botCats)
    ensures Valid(PreviousConversation(s), advCats, botCats)
  {
    if s.conversationIndex > 0 {
      ConversationStepValid(s, advCats, botCats, s.conversationIndex - 1);
    }
  }

  lemma NextConversationValid(s: Review, advCats: seq<string>, botCats: seq<string>)
    requires Valid(s, advCats, botCats)
    ensures Valid(NextConversation(s), advCats, botCats)
  {
    if s.conversationIndex < |s.conversationIds| - 1 {
      ConversationStepValid(s, advCats, botCats, s.conversationIndex + 1);
    }
  }

  lemma PreviousMessageValid(s: Review, advCats: seq<string>, botCats: seq<string>)
    requires Valid(s, advCats, botCats)
    ensures Valid(PreviousMessage(s), advCats, botCats)
  {
  }

  lemma NextMessageValid(s: Review, advCats: seq<string>, botCats: seq<string>)
    requires Valid(s, advCats, botCats)
    ensures Valid(NextMessage(s), advCats, botCats)
  {
  }

  lemma NavKeyValid(s: Review, advCats: seq<string>, botCats: seq<string>,
                    code: string, shift: bool, repeat: bool)
    requires Valid(s, advCats, botCats)
    ensures Valid(NavKey(s, code, shift, repeat), advCats, botCats)
  {
    PreviousMessageValid(s, advCats, botCats);
    NextMessageValid(s, advCats, botCats);
    PreviousConversationValid(s, advCats, botCats);
    NextConversationValid(s, advCats, botCats);
  }

  /** Every event keeps the cursor invariant. */
  lemma StepKeepsValid(s: Review, advCats: seq<string>, botCats: seq<string>, e: Event)
    requires Valid(s, advCats, botCats) && Enabled(s, e)
    ensures Valid(Step(s, advCats, botCats, e), advCats, botCats)
  {
    match e
    case Uploaded(result) =>
      if result.Success? { LoadValid(s, advCats, botCats, result.value); }
    case PreviousMessageClicked => PreviousMessageValid(s, advCats, botCats);
    case NextMessageClicked => NextMessageValid(s, advCats, botCats);
    case PreviousConversationClicked => PreviousConversationValid(s, advCats, botCats);
    case NextConversationClicked => NextConversationValid(s, advCats, botCats);
    case Scrubbed(position) =>
    case KeyPressed(code, shift, repeat) => NavKeyValid(s, advCats, botCats, code, shift, repeat);
    case Confirmed(category, selection) => ConfirmValid(s, advCats, botCats, category, selection);
    case MovedBack =>
  }

  /** Whatever the event, when it changes the current position and a message
      is shown, focus is back on the first category and the shown labels are
      that message's. */
  lemma FocusResetsWhenMessageChanges(s: Review, advCats: seq<string>, botCats: seq<string>, e: Event)
    requires Enabled(s, e)
    requires Moved(s, Step(s, advCats, botCats, e)) && HasCurrent(Step(s, advCats, botCats, e))
    ensures Step(s, advCats, botCats, e).focus == 0
    ensures Step(s, advCats, botCats, e).selections == Current(Step(s, advCats, botCats, e)).labels
  {
  }

  /** Confirming before the last category moves focus to the next category. */
  lemma ConfirmAdvancesFocus(s: Review, advCats: seq<string>, botCats: seq<string>,
                             category: string, selection: LabelValue)
    requires HasCurrent(s) && 0 <= s.conversationIndex
    requires s.focus + 1 < |CategoriesFor(Current(s).sender, advCats, botCats)|
    ensures var r := Confirm(s, advCats, botCats, category, selection);
            r.focus == s.focus + 1 && !Moved(s, r) && r.conversation == s.conversation
  {
  }

  /** Confirming the last category of a message that is not its
      conversation's last moves to the next message, focus 0. */
  lemma ConfirmMovesToNextMessage(s: Review, advCats: seq<string>, botCats: seq<string>,
                                  category: string, selection: LabelValue)
    requires HasCurrent(s) && 0 <= s.conversationIndex
    requires s.focus + 1 >= |CategoriesFor(Current(s).sender, advCats, botCats)|
    requires s.index < |s.conversation| - 1
    ensures var r := Confirm(s, advCats, botCats, category, selection);
            && r.index == s.index + 1 && r.conversationIndex == s.conversationIndex
            && r.conversation == s.conversation
            && r.focus == 0 && r.selections == s.conversation[s.index + 1].labels
  {
  }

  /** Confirming the last category of a conversation's last message moves to
      the first message of the next conversation, focus 0; that conversation
      carries its up-to-date labels even though it is rebuilt from the list
      as it was before the confirm. */
  lemma ConfirmMovesToNextConversation(s: Review, advCats: seq<string>, botCats: seq<string>,
                                       category: string, selection: LabelValue)
    requires Valid(s, advCats, botCats) && HasCurrent(s)
    requires s.focus + 1 >= |CategoriesFor(Current(s).sender, advCats, botCats)|
    requires s.index == |s.conversation| - 1 && s.conversationIndex < |s.conversationIds| - 1
    ensures var r := Confirm(s, advCats, botCats, category, selection);
            && r.conversationIndex == s.conversationIndex + 1 && r.index == 0 && r.focus == 0
            && r.conversation == InConversation(r.messages, r.conversationIds[r.conversationIndex])
  {
    var cur := Current(s);
    var j := s.conversationIndex + 1;
    var id := s.conversationIds[j];
    CurrentInConversation(s, advCats, botCats);
    DistinctNoDup(ConversationIdsOf(s.messages));
    assert id != cur.conversationId;
    var t := s.(messages := ApplyLabel(s.messages, cur, category, selection),
                selections := s.selections[category := selection]);
    var r := MoveToNext(t, s.messages);
    assert r == t.(conversationIndex := j, conversation := InConversation(s.messages, id), index := 0, focus := 0);
    assert Confirm(s, advCats, botCats, category, selection) == ResetFocus(r);
    OtherConversationUntouched(s.messages, cur, category, selection, id);
  }

  /** On the last message of the last conversation, confirming the last
      category writes the label into the messages and the shown selections
      but moves no cursor, and nothing else changes. */
  lemma ConfirmAtEndKeepsCursors(s: Review, advCats: seq<string>, botCats: seq<string>,
                                 category: string, selection: LabelValue)
    requires HasCurrent(s) && 0 <= s.conversationIndex
    requires s.focus + 1 >= |CategoriesFor(Current(s).sender, advCats, botCats)|
    requires s.index == |s.conversation| - 1 && s.conversationIndex >= |s.conversationIds| - 1
    ensures var r := Confirm(s, advCats, botCats, category, selection);
            && r.index == s.index && r.conversationIndex == s.conversationIndex
            && r.focus == s.focus && r.conversation == s.conversation
            && r.selections == s.selections[category := selection]
            && r == s.(messages := r.messages, selections := s.selections[category := selection])
  {
  }

  /** One exported cell: a message field, a label value, or the label map
      itself (the spread copies the `labelCategories` property too). */
  datatype Cell = Field(text: string) | Label(value: LabelValue) | LabelMap(labels: map<string, LabelValue>)

  const BaseColumns: set<string> := {
    "advertiserID", "conversationID", "accountSegment", "messageTime",
    "website_image", "sender", "messageText", "labelCategories" }

  /** `{ ...message }`: the message's own properties. */
  function Fields(m: Message): (row: map<string, Cell>)
    ensures row.Keys == BaseColumns
  {
    map[
      "advertiserID" := Field(m.advertiserId),
      "conversationID" := Field(m.conversationId),
      "accountSegment" := Field(m.accountSegment),
      "messageTime" := Field(m.messageTime),
      "website_image" := Field(m.websiteImage),
      "sender" := Field(m.sender),
      "messageText" := Field(m.messageText),
      "labelCategories" := LabelMap(m.labels)]
  }

  /** `{ ...message, ...message.labelCategories }`: the message's properties
      plus one column per label, a label winning over a property of the same
      name. */
  function ExportRow(m: Message): (row: map<string, Cell>)
    ensures row.Keys == BaseColumns + m.labels.Keys
    ensures forall k :: k in m.labels ==> row[k] == Label(m.labels[k])
    ensures forall k :: k in BaseColumns && k !in m.labels ==> row[k] == Fields(m)[k]
  {
    Fields(m) + map k | k in m.labels :: Label(m.labels[k])
  }

  /** `handleExportNotes`: one row per loaded message, all conversations, in
      load order. */
  function Export(ms: seq<Message>): (rows: seq<map<string, Cell>>)
    ensures |rows| == |ms|
    ensures forall i :: 0 <= i < |ms| ==> rows[i] == ExportRow(ms[i])
  {
    seq(|ms|, i requires 0 <= i < |ms| => ExportRow(ms[i]))
  }

  /** Exporting straight after a load gives one row per data row, each with
      every category column present and unset. */
  lemma ExportAfterLoad(results: CsvParser.ParseResults, advCats: seq<string>, botCats: seq<string>)
    requires CsvParser.ParseCsv(results, advCats, botCats).Success?
    ensures var rows := Export(CsvParser.ParseCsv(results, advCats, botCats).value);
            && |rows| == |results.data|
            && forall i, k :: 0 <= i < |rows| && (k in advCats || k in botCats) ==>
                 k in rows[i] && rows[i][k] == Label(Unset)
  {
  }

  /** The export names its columns after the message properties, not the
      upload header: unless a category happens to share the name, an exported
      row has no `advertiser_id` or `text` column, so it fails the upload's
      required-field check. */
  lemma ExportUsesPropertyNames(m: Message)
    requires "advertiser_id" !in m.labels && "text" !in m.labels
    ensures "advertiser_id" !in ExportRow(m) && "text" !in ExportRow(m)
    ensures "advertiserID" in ExportRow(m) && "messageText" in ExportRow(m)
  {
  }
}
