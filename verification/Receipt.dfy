/**
 The receipt of a publication: which message ids the server gave to the random ids of one query.
 */
module Receipt {
  import opened Bytes
  import opened Sequences

  datatype InputPeer = InputSelf | InputUser(id: int) | InputChat(id: int) | InputChannel(id: int) | OtherInput

  datatype Peer = User(id: int) | Chat(id: int) | Channel(id: int)

  datatype Message = Message(id: int, peer: Option<Peer>, out: bool)

  datatype Update = MessageId(randomId: int, id: int) | NewMessage(message: Message) | OtherUpdate(tag: int)

  datatype Result = ShortSent(id: int, out: bool) | Updates(updates: seq<Update>) | OtherResult

  /** What the receipt is checked against. */
  datatype Query = Query(peer: InputPeer, ids: seq<int>, accountId: int)

  predicate SelfPeer(q: Query) {
    q.peer == InputSelf || q.peer == InputUser(q.accountId)
  }

  predicate SamePeer(q: Query, p: Option<Peer>) {
    match q.peer
    case InputChannel(id) => p == Some(Channel(id))
    case InputChat(id) => p == Some(Chat(id))
    case InputUser(id) => p == Some(User(id))
    case InputSelf => p == Some(User(q.accountId))
    case OtherInput => false
  }

  /** The message is in the query's chat, and ours. */
  predicate Owned(q: Query, m: Message) {
    SamePeer(q, m.peer) && (m.out || SelfPeer(q))
  }

  // ----- what a receipt is, without an order

  /** The message is an outgoing one in the chat or channel that the query names, or in the dialog with the user it
      names; in the dialog with oneself, which a query names in two ways, it need not be outgoing. */
  predicate Ours(q: Query, m: Message) {
    || (m.out && q.peer.InputChannel? && m.peer == Some(Channel(q.peer.id)))
    || (m.out && q.peer.InputChat? && m.peer == Some(Chat(q.peer.id)))
    || (m.out && q.peer.InputUser? && m.peer == Some(User(q.peer.id)))
    || (m.peer == Some(User(q.accountId)) && (q.peer == InputSelf || q.peer == InputUser(q.accountId)))
  }

  lemma OwnedIff(q: Query, m: Message)
    ensures Owned(q, m) <==> Ours(q, m)
  {
  }

  predicate Counts(u: Update) {
    !u.OtherUpdate?
  }

  /** An update that has a place in the receipt has it once. */
  predicate Fitting(q: Query, m: multiset<Update>, u: Update) {
    Counts(u) ==> m[u] == 1 && if u.MessageId? then u.randomId in q.ids else Ours(q, u.message)
  }

  /** Two updates about the same random id, or with the same message. */
  predicate Clash(u: Update, v: Update) {
    || (u.MessageId? && v.MessageId? && u.randomId == v.randomId)
    || (u.NewMessage? && v.NewMessage? && u.message.id == v.message.id)
  }

  ghost predicate Consistent(q: Query, m: multiset<Update>) {
    && (forall u :: u in m ==> Fitting(q, m, u))
    && (forall u, v :: u in m && v in m && Clash(u, v) ==> u == v)
  }

  ghost predicate Mapped(m: multiset<Update>, r: int, t: int) {
    MessageId(r, t) in m
  }

  ghost predicate Arrived(m: multiset<Update>, t: int) {
    exists msg :: NewMessage(msg) in m && msg.id == t
  }

  /** The targets in request order: each random id mapped, all positive, pairwise distinct, and
      the new messages are exactly the targets. */
  ghost predicate Answers(q: Query, m: multiset<Update>, targets: seq<int>) {
    && |targets| == |q.ids|
    && (forall i :: 0 <= i < |targets| ==> targets[i] > 0 && Mapped(m, q.ids[i], targets[i]))
    && Distinct(targets)
    && (forall t :: Arrived(m, t) <==> t in targets)
  }

  ghost predicate Accepts(q: Query, m: multiset<Update>, targets: seq<int>) {
    Consistent(q, m) && Answers(q, m, targets)
  }

  /** At most one answer, whatever the order of the updates. */
  lemma AnswerIsUnique(q: Query, m: multiset<Update>, a: seq<int>, b: seq<int>)
    requires Accepts(q, m, a) && Accepts(q, m, b)
    ensures a == b
  {
    forall i | 0 <= i < |a| ensures a[i] == b[i] {
      assert Mapped(m, q.ids[i], a[i]) && Mapped(m, q.ids[i], b[i]);
      assert Clash(MessageId(q.ids[i], a[i]), MessageId(q.ids[i], b[i]));
    }
  }

  // ----- the number of distinct elements

  function SetOf(s: seq<int>): (r: set<int>) {
    set x | x in s
  }

  lemma {:induction false} DistinctIff(s: seq<int>)
    ensures |SetOf(s)| <= |s|
    ensures |SetOf(s)| == |s| <==> Distinct(s)
  {
    if s != [] {
      var n := |s| - 1;
      var front := s[..n];
      DistinctIff(front);
      assert s == front + [s[n]];
      assert SetOf(s) == SetOf(front) + {s[n]};
      if s[n] in front {
        assert SetOf(s) == SetOf(front);
        var i :| 0 <= i < n && front[i] == s[n];
        assert s[i] == s[n];
      } else {
        assert Distinct(s) <==> Distinct(front) by {
          if Distinct(s) {
            assert forall i, j :: 0 <= i < j < n ==> front[i] == s[i] && front[j] == s[j];
          }
        }
      }
    }
  }

  // ----- gathering the updates

  predicate Recorded(u: Update, mapping: map<int, int>, messages: map<int, Message>) {
    match u
    case MessageId(r, t) => r in mapping && mapping[r] == t
    case NewMessage(msg) => msg.id in messages && messages[msg.id] == msg
    case OtherUpdate(_) => true
  }

  /** The two dictionaries hold exactly the updates seen so far. */
  ghost predicate Gathered(q: Query, m: multiset<Update>, mapping: map<int, int>, messages: map<int, Message>) {
    && Consistent(q, m)
    && (forall u :: u in m ==> Recorded(u, mapping, messages))
    && (forall r :: r in mapping ==> MessageId(r, mapping[r]) in m)
    && (forall t :: t in messages ==> messages[t].id == t && NewMessage(messages[t]) in m)
  }

  /** An update that clashes with one already seen makes every larger multiset inconsistent. */
  lemma ClashRejects(q: Query, m: multiset<Update>, u: Update, v: Update, whole: multiset<Update>)
    requires Counts(u) && v in m && Clash(u, v) && m + multiset{u} <= whole
    ensures !Consistent(q, whole)
  {
    if u == v {
      assert (m + multiset{u})[u] >= 2;
      assert !Fitting(q, whole, u);
    }
  }

  lemma UnfitRejects(q: Query, u: Update, whole: multiset<Update>)
    requires u in whole && !Fitting(q, multiset{u}, u)
    ensures !Consistent(q, whole)
  {
    assert !Fitting(q, whole, u);
  }

  lemma GatherOne(q: Query, m: multiset<Update>, mapping: map<int, int>, messages: map<int, Message>, u: Update)
    requires Gathered(q, m, mapping, messages) && Fitting(q, multiset{u}, u)
    requires u.MessageId? ==> u.randomId !in mapping
    requires u.NewMessage? ==> u.message.id !in messages
    ensures var mapping' := if u.MessageId? then mapping[u.randomId := u.id] else mapping;
            var messages' := if u.NewMessage? then messages[u.message.id := u.message] else messages;
            Gathered(q, m + multiset{u}, mapping', messages')
  {
    var m' := m + multiset{u};
    assert u in m ==> Recorded(u, mapping, messages);
    assert Counts(u) ==> u !in m;
    forall v | v in m' ensures Fitting(q, m', v) {
      assert v != u ==> Fitting(q, m, v);
    }
    forall v, w | v in m' && w in m' && Clash(v, w) ensures v == w {
      assert v in m ==> Recorded(v, mapping, messages);
      assert w in m ==> Recorded(w, mapping, messages);
    }
    forall v | v in m'
      ensures Recorded(v,
        if u.MessageId? then mapping[u.randomId := u.id] else mapping,
        if u.NewMessage? then messages[u.message.id := u.message] else messages)
    {
      assert v in m ==> Recorded(v, mapping, messages);
    }
  }

  lemma PrefixBound(updates: seq<Update>, k: nat)
    requires k < |updates|
    ensures multiset(updates[..k + 1]) == multiset(updates[..k]) + multiset{updates[k]}
    ensures multiset(updates[..k]) + multiset{updates[k]} <= multiset(updates)
    ensures updates[k] in multiset(updates)
  {
    assert updates[..k + 1] == updates[..k] + [updates[k]];
    assert updates == updates[..k + 1] + updates[k + 1..];
  }

  method Gather(q: Query, updates: seq<Update>)
    returns (ok: bool, mapping: map<int, int>, messages: map<int, Message>)
    ensures ok <==> Consistent(q, multiset(updates))
    ensures ok ==> Gathered(q, multiset(updates), mapping, messages)
  {
    mapping, messages := map[], map[];
    for k := 0 to |updates|
      invariant Gathered(q, multiset(updates[..k]), mapping, messages)
    {
      var update := updates[k];
      PrefixBound(updates, k);
      match update {
        case MessageId(r, t) =>
          if r !in q.ids || r in mapping {
            if r !in q.ids {
              UnfitRejects(q, update, multiset(updates));
            } else {
              ClashRejects(q, multiset(updates[..k]), update, MessageId(r, mapping[r]), multiset(updates));
            }
            return false, mapping, messages;
          }
          GatherOne(q, multiset(updates[..k]), mapping, messages, update);
          mapping := mapping[r := t];
        case NewMessage(message) =>
          if message.id in messages || !SamePeer(q, message.peer) || !(message.out || SelfPeer(q)) {
            OwnedIff(q, message);
            if !Owned(q, message) {
              UnfitRejects(q, update, multiset(updates));
            } else {
              ClashRejects(q, multiset(updates[..k]), update, NewMessage(messages[message.id]), multiset(updates));
            }
            return false, mapping, messages;
          }
          GatherOne(q, multiset(updates[..k]), mapping, messages, update);
          messages := messages[message.id := message];
        case OtherUpdate(_) =>
          GatherOne(q, multiset(updates[..k]), mapping, messages, update);
      }
    }
    assert updates[..|updates|] == updates;
    ok := true;
  }

  // ----- the answer

  /** The targets that the mapping gives, zero for a random id without one. */
  function TargetsOf(ids: seq<int>, mapping: map<int, int>): (targets: seq<int>)
    ensures |targets| == |ids|
    ensures forall i :: 0 <= i < |ids| ==> targets[i] == if ids[i] in mapping then mapping[ids[i]] else 0
  {
    seq(|ids|, i requires 0 <= i < |ids| => if ids[i] in mapping then mapping[ids[i]] else 0)
  }

  predicate Complete(ids: seq<int>, mapping: map<int, int>, messages: map<int, Message>) {
    var targets := TargetsOf(ids, mapping);
    && (forall i :: 0 <= i < |targets| ==> targets[i] > 0)
    && |SetOf(targets)| == |ids|
    && messages.Keys == SetOf(targets)
  }

  lemma ArrivedIff(q: Query, m: multiset<Update>, mapping: map<int, int>, messages: map<int, Message>, t: int)
    requires Gathered(q, m, mapping, messages)
    ensures Arrived(m, t) <==> t in messages
  {
    if Arrived(m, t) {
      var msg :| NewMessage(msg) in m && msg.id == t;
      assert Recorded(NewMessage(msg), mapping, messages);
    }
    if t in messages {
      assert NewMessage(messages[t]) in m;
    }
  }

  lemma CompleteAnswers(q: Query, m: multiset<Update>, mapping: map<int, int>, messages: map<int, Message>)
    requires Gathered(q, m, mapping, messages) && Complete(q.ids, mapping, messages)
    ensures Answers(q, m, TargetsOf(q.ids, mapping))
  {
    var targets := TargetsOf(q.ids, mapping);
    DistinctIff(targets);
    forall i | 0 <= i < |targets| ensures Mapped(m, q.ids[i], targets[i]) {
      assert targets[i] > 0;
    }
    forall t ensures Arrived(m, t) <==> t in targets {
      ArrivedIff(q, m, mapping, messages, t);
      assert t in SetOf(targets) <==> t in targets;
    }
  }

  lemma AnswersAreComplete(q: Query, m: multiset<Update>, mapping: map<int, int>, messages: map<int, Message>, targets: seq<int>)
    requires Gathered(q, m, mapping, messages) && Answers(q, m, targets)
    ensures targets == TargetsOf(q.ids, mapping) && Complete(q.ids, mapping, messages)
  {
    forall i | 0 <= i < |targets| ensures targets[i] == TargetsOf(q.ids, mapping)[i] {
      assert Mapped(m, q.ids[i], targets[i]);
      assert Recorded(MessageId(q.ids[i], targets[i]), mapping, messages);
    }
    DistinctIff(targets);
    forall t ensures t in messages <==> t in SetOf(targets) {
      ArrivedIff(q, m, mapping, messages, t);
    }
  }

  /** The updates a result carries. */
  function UpdatesOf(result: Result): (r: seq<Update>) {
    if result.Updates? then result.updates else []
  }

  /** A short answer belongs to the one random id of its query. */
  predicate ShortAccepted(q: Query, result: Result) {
    && result.ShortSent? && |q.ids| == 1 && result.id > 0
    && (result.out || q.peer == InputSelf || q.peer == InputUser(q.accountId))
  }

  /** `_publication_receipt`. The answer is a function of the multiset of updates, so not of their order. */
  method PublicationReceipt(q: Query, result: Result) returns (r: Option<seq<int>>)
    ensures ShortAccepted(q, result) ==> r == Some([result.id])
    ensures !ShortAccepted(q, result) ==>
      forall targets :: r == Some(targets) <==> Accepts(q, multiset(UpdatesOf(result)), targets)
    ensures UpdatesOf(result) == (match result case Updates(updates) => updates case _ => [])
  {
    if result.ShortSent? && |q.ids| == 1 {
      if result.id > 0 && (result.out || SelfPeer(q)) {
        return Some([result.id]);
      }
    }
    var updates := UpdatesOf(result);
    var ok, mapping, messages := Gather(q, updates);
    if !ok {
      return None;
    }
    var targets := TargetsOf(q.ids, mapping);
    forall t | Answers(q, multiset(updates), t) ensures t == targets && Complete(q.ids, mapping, messages) {
      AnswersAreComplete(q, multiset(updates), mapping, messages, t);
    }
    if (exists i :: 0 <= i < |targets| && targets[i] <= 0) || |SetOf(targets)| != |q.ids| || messages.Keys != SetOf(targets) {
      return None;
    }
    CompleteAnswers(q, multiset(updates), mapping, messages);
    r := Some(targets);
  }

  /** The random ids of an accepted receipt are pairwise distinct. */
  lemma AcceptedIdsAreDistinct(q: Query, m: multiset<Update>, targets: seq<int>)
    requires Accepts(q, m, targets)
    ensures Distinct(q.ids)
  {
    forall i, j | 0 <= i < j < |q.ids| ensures q.ids[i] != q.ids[j] {
      assert Mapped(m, q.ids[i], targets[i]) && Mapped(m, q.ids[j], targets[j]);
      if q.ids[i] == q.ids[j] {
        assert Clash(MessageId(q.ids[i], targets[i]), MessageId(q.ids[j], targets[j]));
      }
    }
  }
}
