/** The dispatcher pinboard: notes in the database
    (src/controllers/dispatcherPinboard.controller.ts) and the drafts that post them
    (speedy-dispatcher/src/DispatcherPinboard.tsx). */
module Pinboard {
  import opened Options

  datatype NoteStatus = Active | Resolved

  /** What the writer typed, already trimmed. */
  datatype Content = Content(title: string, message: string, important: bool)

  datatype Note = Note(
    author: string,
    content: Content,
    status: NoteStatus,
    version: nat,
    resolvedAt: Option<int>,
    resolvedBy: Option<string>)

  /** One status change that took effect. */
  datatype Change = Change(id: nat, fromVersion: nat, to: NoteStatus)

  datatype Tables = Tables(notes: map<nat, Note>, readBy: map<(nat, string), int>, changes: seq<Change>)

  datatype Reply = Created | AlreadyStored | Conflict | NotFound | Done

  predicate Success(reply: Reply) { reply.Created? || reply.AlreadyStored? || reply.Done? }

  // ----- the server ----------------------------------------------------------------------------

  /** The insert, or the answer to a repeated id. */
  function CreateReply(t: Tables, id: nat, author: string, content: Content): Reply {
    if id !in t.notes then Created
    else if t.notes[id].author == author && t.notes[id].content == content then AlreadyStored
    else Conflict
  }

  function CreateTables(t: Tables, id: nat, author: string, content: Content, at: int): Tables {
    if id in t.notes then t
    else t.(notes := t.notes[id := Note(author, content, Active, 0, None, None)],
            readBy := t.readBy[(id, author) := at])
  }

  /** The conditional update behind resolving and reopening. */
  predicate StatusMatches(t: Tables, id: nat, to: NoteStatus, version: nat) {
    id in t.notes && t.notes[id].version == version && t.notes[id].status != to
  }

  function StatusTables(t: Tables, id: nat, to: NoteStatus, version: nat, actor: string, at: int): Tables {
    if !StatusMatches(t, id, to, version) then t
    else
      var note := t.notes[id].(status := to, version := version + 1,
        resolvedAt := if to.Resolved? then Some(at) else None,
        resolvedBy := if to.Resolved? then Some(actor) else None);
      t.(notes := t.notes[id := note], changes := t.changes + [Change(id, version, to)])
  }

  function ReadTables(t: Tables, id: nat, user: string, at: int): Tables {
    if id !in t.notes || (id, user) in t.readBy then t
    else t.(readBy := t.readBy[(id, user) := at])
  }

  class Database {
    var notes: map<nat, Note>
    var readBy: map<(nat, string), int>
    ghost var changes: seq<Change>

    ghost function Contents(): Tables
      reads this
    {
      Tables(notes, readBy, changes)
    }

    constructor ()
      ensures Contents() == Tables(map[], map[], [])
    {
      notes, readBy, changes := map[], map[], [];
    }

    method CreatePinboardNote(id: nat, author: string, content: Content, at: int) returns (reply: Reply)
      modifies this
      ensures reply == CreateReply(old(Contents()), id, author, content)
      ensures Contents() == CreateTables(old(Contents()), id, author, content, at)
    {
      if id !in notes {
        notes := notes[id := Note(author, content, Active, 0, None, None)];
        readBy := readBy[(id, author) := at];
        return Created;
      }
      var existing := notes[id];
      if existing.author != author || existing.content != content { return Conflict; }
      reply := AlreadyStored;
    }

    method UpdateStatus(id: nat, to: NoteStatus, version: nat, actor: string, at: int) returns (count: nat)
      modifies this
      ensures count == if StatusMatches(old(Contents()), id, to, version) then 1 else 0
      ensures Contents() == StatusTables(old(Contents()), id, to, version, actor, at)
    {
      if id !in notes || notes[id].version != version || notes[id].status == to { return 0; }
      var note := notes[id].(status := to, version := notes[id].version + 1);
      if to == Resolved {
        note := note.(resolvedAt := Some(at), resolvedBy := Some(actor));
      } else {
        note := note.(resolvedAt := None, resolvedBy := None);
      }
      notes := notes[id := note];
      changes := changes + [Change(id, version, to)];
      count := 1;
    }

    /** The answer after the update, read later: a change that found the note already in
        the wanted status is no conflict. */
    method AnswerStatus(id: nat, to: NoteStatus, count: nat) returns (reply: Reply)
      ensures reply == if id !in notes then NotFound
                       else if count == 0 && notes[id].status != to then Conflict else Done
    {
      if id !in notes { return NotFound; }
      if count == 0 && notes[id].status != to { return Conflict; }
      reply := Done;
    }

    method ReadPinboardNote(id: nat, user: string, at: int) returns (reply: Reply)
      modifies this
      ensures reply == if id in old(notes) then Done else NotFound
      ensures Contents() == ReadTables(old(Contents()), id, user, at)
    {
      if id !in notes { return NotFound; }
      if (id, user) !in readBy { readBy := readBy[(id, user) := at]; }
      reply := Done;
    }
  }

  // ----- the drafts --------------------------------------------------------------------------------

  /** A POST on its way: it may reach the server at any later time, once, or never, and
      its reply may be lost. */
  datatype Message = Message(client: nat, draft: nat, id: nat, author: string, content: Content, reply: Option<Reply>)

  /** A dispatcher's form. `draft` numbers the notes begun in it; `postId` is kept across
      retries of one draft; `sent` is the message being waited for. */
  datatype Client = Client(author: string, content: Content, draft: nat, postId: Option<nat>, sent: Option<nat>)

  datatype World = World(tables: Tables, clients: map<nat, Client>, messages: seq<Message>, nextUuid: nat)

  datatype Event =
    | SignIn(c: nat, author: string)
    | Edit(c: nat, content: Content)
    | PostClick(c: nat)
    | ClearClick(c: nat)
    | ServerCreate(m: nat, at: int)
    | ReplyArrives(c: nat)
    | ReplyLost(c: nat)
    | StatusRequest(id: nat, to: NoteStatus, version: nat, actor: string, at: int)
    | ReadRequest(id: nat, user: string, at: int)

  const EMPTY: Content := Content("", "", false)

  const START: World := World(Tables(map[], map[], []), map[], [], 0)

  predicate Sendable(client: Client) {
    client.sent.None? && client.content.title != "" && client.content.message != ""
  }

  /** `postId ??= randomUUID()`, then the POST. */
  function Posted(w: World, c: nat): World
    requires c in w.clients
  {
    var client := w.clients[c];
    if !Sendable(client) then w
    else
      var id := if client.postId.Some? then client.postId.value else w.nextUuid;
      w.(messages := w.messages + [Message(c, client.draft, id, client.author, client.content, None)],
         clients := w.clients[c := client.(postId := Some(id), sent := Some(|w.messages|))],
         nextUuid := if client.postId.Some? then w.nextUuid else w.nextUuid + 1)
  }

  function FreshDraft(client: Client): Client {
    client.(content := EMPTY, draft := client.draft + 1, postId := None, sent := None)
  }

  function Step(w: World, e: Event): World {
    match e
    case SignIn(c, author) =>
      if c in w.clients then w else w.(clients := w.clients[c := Client(author, EMPTY, 0, None, None)])
    case Edit(c, content) =>
      if c in w.clients && w.clients[c].sent.None? then
        w.(clients := w.clients[c := w.clients[c].(content := content)])
      else w
    case PostClick(c) => if c in w.clients then Posted(w, c) else w
    case ClearClick(c) =>
      if c in w.clients && w.clients[c].sent.None? then w.(clients := w.clients[c := FreshDraft(w.clients[c])]) else w
    case ServerCreate(m, at) =>
      if m < |w.messages| && w.messages[m].reply.None? then
        var msg := w.messages[m];
        w.(tables := CreateTables(w.tables, msg.id, msg.author, msg.content, at),
           messages := w.messages[m := msg.(reply := Some(CreateReply(w.tables, msg.id, msg.author, msg.content)))])
      else w
    case ReplyArrives(c) =>
      if c in w.clients && w.clients[c].sent.Some? && w.clients[c].sent.value < |w.messages| &&
         w.messages[w.clients[c].sent.value].reply.Some?
      then
        w.(clients := w.clients[c := if Success(w.messages[w.clients[c].sent.value].reply.value)
                                     then FreshDraft(w.clients[c]) else w.clients[c].(sent := None)])
      else w
    case ReplyLost(c) =>
      if c in w.clients then w.(clients := w.clients[c := w.clients[c].(sent := None)]) else w
    case StatusRequest(id, to, version, actor, at) =>
      w.(tables := StatusTables(w.tables, id, to, version, actor, at))
    case ReadRequest(id, user, at) => w.(tables := ReadTables(w.tables, id, user, at))
  }

  function Run(w: World, events: seq<Event>): World {
    if events == [] then w else Step(Run(w, events[..|events| - 1]), events[|events| - 1])
  }

  // ----- the tables -----------------------------------------------------------------------------------

  /** The changes of one note, oldest first. */
  function ChangesOf(changes: seq<Change>, id: nat): seq<Change> {
    if changes == [] then []
    else
      var last := changes[|changes| - 1];
      ChangesOf(changes[..|changes| - 1], id) + (if last.id == id then [last] else [])
  }

  /** Status changes take versions 0, 1, 2, ... in order, one each, resolving and
      reopening in turn. */
  predicate Alternates(changes: seq<Change>) {
    forall k :: 0 <= k < |changes| ==>
      changes[k].fromVersion == k && (changes[k].to.Resolved? <==> k % 2 == 0)
  }

  /** A note is resolved exactly when its resolver and resolve time are set, and its
      version counts its changes. */
  predicate GoodNote(note: Note, changes: seq<Change>) {
    && Alternates(changes) && note.version == |changes|
    && (note.status.Resolved? <==> note.version % 2 == 1)
    && (note.status.Resolved? <==> note.resolvedAt.Some?)
    && (note.status.Resolved? <==> note.resolvedBy.Some?)
  }

  ghost predicate NotesGood(t: Tables) {
    && (forall id :: id in t.notes ==> GoodNote(t.notes[id], ChangesOf(t.changes, id)))
    && (forall id: nat :: id !in t.notes ==> ChangesOf(t.changes, id) == [])
  }

  /** Only stored notes are acknowledged, and each is by its author. */
  ghost predicate ReadsGood(t: Tables) {
    && (forall r :: r in t.readBy ==> r.0 in t.notes)
    && (forall id :: id in t.notes ==> (id, t.notes[id].author) in t.readBy)
  }

  ghost predicate GoodTables(t: Tables) { NotesGood(t) && ReadsGood(t) }

  predicate NoteKept(before: Note, after: Note) {
    after.author == before.author && after.content == before.content && before.version <= after.version
  }

  /** Notes and acknowledgements stay; what was posted never changes; versions never fall. */
  predicate TablesKept(before: Tables, after: Tables) {
    && (forall id :: id in before.notes ==> id in after.notes && NoteKept(before.notes[id], after.notes[id]))
    && (forall r :: r in before.readBy ==> r in after.readBy && after.readBy[r] == before.readBy[r])
    && before.changes <= after.changes
  }

  lemma KeptUnchanged(t: Tables)
    ensures TablesKept(t, t)
  {
  }

  lemma ChangesOfSnoc(changes: seq<Change>, change: Change, id: nat)
    ensures ChangesOf(changes + [change], id) ==
            ChangesOf(changes, id) + (if change.id == id then [change] else [])
  {
    assert (changes + [change])[..|changes|] == changes;
  }

  lemma CreateKeeps(t: Tables, id: nat, author: string, content: Content, at: int)
    requires GoodTables(t)
    ensures GoodTables(CreateTables(t, id, author, content, at))
    ensures TablesKept(t, CreateTables(t, id, author, content, at))
  {
    CreateOnlyAdds(t, id, author, content, at);
  }

  lemma CreateOnlyAdds(t: Tables, id: nat, author: string, content: Content, at: int)
    requires ReadsGood(t)
    ensures ReadsGood(CreateTables(t, id, author, content, at))
    ensures TablesKept(t, CreateTables(t, id, author, content, at))
  {
  }

  lemma ChangedNoteIsGood(note: Note, changes: seq<Change>, change: Change, after: Note)
    requires GoodNote(note, changes) && change.fromVersion == note.version && change.to != note.status
    requires after.status == change.to && after.version == note.version + 1
    requires after.resolvedAt.Some? == after.resolvedBy.Some? == change.to.Resolved?
    ensures GoodNote(after, changes + [change])
  {
  }

  lemma {:induction false} StatusKeeps(t: Tables, id: nat, to: NoteStatus, version: nat, actor: string, at: int)
    requires GoodTables(t)
    ensures GoodTables(StatusTables(t, id, to, version, actor, at))
    ensures TablesKept(t, StatusTables(t, id, to, version, actor, at))
  {
    if StatusMatches(t, id, to, version) {
      var after := StatusTables(t, id, to, version, actor, at);
      forall i: nat ensures ChangesOf(after.changes, i) ==
        ChangesOf(t.changes, i) + (if i == id then [Change(id, version, to)] else [])
      {
        ChangesOfSnoc(t.changes, Change(id, version, to), i);
      }
      ChangedNoteIsGood(t.notes[id], ChangesOf(t.changes, id), Change(id, version, to), after.notes[id]);
    }
    StatusOnlyUpdates(t, id, to, version, actor, at);
  }

  lemma StatusOnlyUpdates(t: Tables, id: nat, to: NoteStatus, version: nat, actor: string, at: int)
    requires ReadsGood(t)
    ensures ReadsGood(StatusTables(t, id, to, version, actor, at))
    ensures TablesKept(t, StatusTables(t, id, to, version, actor, at))
  {
    if !StatusMatches(t, id, to, version) {
      KeptUnchanged(t);
    }
  }

  // ----- drafts and their ids -----------------------------------------------------------------------------

  predicate SameDraft(a: Message, b: Message) { a.client == b.client && a.draft == b.draft }

  /** Two messages carry one id exactly when they come from one draft. */
  ghost predicate IdsPerDraft(messages: seq<Message>) {
    forall i, j :: 0 <= i < |messages| && 0 <= j < |messages| ==>
      (messages[i].id == messages[j].id <==> SameDraft(messages[i], messages[j]))
  }

  /** The message carries the id kept for the present draft of the client. */
  predicate OfDraft(msg: Message, c: nat, client: Client) {
    msg.client == c && msg.draft == client.draft && client.postId == Some(msg.id)
  }

  /** Every message of a client is of an earlier draft or carries the kept id; and a kept
      id was sent before. */
  ghost predicate ClientGood(c: nat, client: Client, messages: seq<Message>) {
    && (forall i :: 0 <= i < |messages| && messages[i].client == c ==>
          messages[i].author == client.author &&
          (messages[i].draft < client.draft || OfDraft(messages[i], c, client)))
    && (client.postId.Some? ==> exists i :: 0 <= i < |messages| && OfDraft(messages[i], c, client))
    && (client.sent.Some? ==> client.sent.value < |messages| && OfDraft(messages[client.sent.value], c, client))
  }

  /** Once the message is answered its id is stored, and the answer is success exactly if
      what is stored is the message's payload. */
  predicate AnswerGood(msg: Message, t: Tables) {
    msg.reply.Some? ==>
      && msg.id in t.notes
      && (if t.notes[msg.id].author == msg.author && t.notes[msg.id].content == msg.content
          then msg.reply.value in {Created, AlreadyStored} else msg.reply.value == Conflict)
  }

  predicate Creates(msg: Message, id: nat, note: Note) {
    msg.id == id && msg.reply == Some(Created) && msg.author == note.author && msg.content == note.content
  }

  ghost predicate MessagesGood(w: World) {
    forall i :: 0 <= i < |w.messages| ==>
      w.messages[i].id < w.nextUuid && w.messages[i].client in w.clients && AnswerGood(w.messages[i], w.tables)
  }

  ghost predicate ClientsGood(w: World) {
    forall c :: c in w.clients ==> ClientGood(c, w.clients[c], w.messages)
  }

  ghost predicate Sent(messages: seq<Message>, id: nat, note: Note) {
    exists i :: 0 <= i < |messages| && Creates(messages[i], id, note)
  }

  /** Each stored note was created by a message with its payload ... */
  ghost predicate NotesSent(t: Tables, messages: seq<Message>) {
    forall id :: id in t.notes ==> Sent(messages, id, t.notes[id])
  }

  /** ... and no two messages created one note. */
  ghost predicate CreatedOnce(messages: seq<Message>) {
    forall i, j :: 0 <= i < j < |messages| && messages[i].reply == messages[j].reply == Some(Created) ==>
      messages[i].id != messages[j].id
  }

  ghost predicate SendingInv(w: World) {
    && IdsPerDraft(w.messages) && MessagesGood(w) && ClientsGood(w)
    && NotesSent(w.tables, w.messages) && CreatedOnce(w.messages)
  }

  ghost predicate Inv(w: World) { GoodTables(w.tables) && SendingInv(w) }

  lemma TablesStepInv(w: World, t: Tables)
    requires SendingInv(w) && TablesKept(w.tables, t) && t.notes.Keys == w.tables.notes.Keys
    ensures SendingInv(w.(tables := t))
  {
    forall id | id in t.notes ensures Sent(w.messages, id, t.notes[id]) {
      assert Sent(w.messages, id, w.tables.notes[id]);
      var i :| 0 <= i < |w.messages| && Creates(w.messages[i], id, w.tables.notes[id]);
      assert NoteKept(w.tables.notes[id], t.notes[id]);
      assert Creates(w.messages[i], id, t.notes[id]);
    }
    forall i | 0 <= i < |w.messages| ensures AnswerGood(w.messages[i], t) {
      assert AnswerGood(w.messages[i], w.tables);
    }
  }

  lemma ClientStepInv(w: World, c: nat, client: Client)
    requires SendingInv(w) && client.sent.None?
    requires if c in w.clients
      then client.author == w.clients[c].author &&
           ((client.draft == w.clients[c].draft + 1 && client.postId.None?) ||
            (client.draft == w.clients[c].draft && client.postId == w.clients[c].postId))
      else client.draft == 0 && client.postId.None?
    ensures SendingInv(w.(clients := w.clients[c := client]))
  {
    if c in w.clients {
      assert ClientGood(c, w.clients[c], w.messages);
      if client.postId.Some? {
        var i :| 0 <= i < |w.messages| && OfDraft(w.messages[i], c, w.clients[c]);
        assert OfDraft(w.messages[i], c, client);
      }
    }
    assert ClientGood(c, client, w.messages);
  }

  /** The message a click sends carries the id of the draft's earlier tries, if any. */
  lemma PostedIds(w: World, c: nat)
    requires IdsPerDraft(w.messages) && MessagesGood(w) && c in w.clients && Sendable(w.clients[c])
    requires ClientGood(c, w.clients[c], w.messages)
    ensures IdsPerDraft(Posted(w, c).messages)
  {
    var after, n := Posted(w, c), |w.messages|;
    assert after.messages[..n] == w.messages;
    forall i | 0 <= i < n
      ensures w.messages[i].id == after.messages[n].id <==> SameDraft(w.messages[i], after.messages[n])
    {
      if w.clients[c].postId.Some? {
        var k :| 0 <= k < n && OfDraft(w.messages[k], c, w.clients[c]);
        assert w.messages[i].id == w.messages[k].id <==> SameDraft(w.messages[i], w.messages[k]);
      }
    }
  }

  lemma PostedClients(w: World, c: nat)
    requires ClientsGood(w) && c in w.clients && Sendable(w.clients[c])
    ensures ClientsGood(Posted(w, c))
  {
    var after, n := Posted(w, c), |w.messages|;
    assert after.messages[..n] == w.messages;
    assert ClientGood(c, w.clients[c], w.messages);
    forall d | d in after.clients ensures ClientGood(d, after.clients[d], after.messages) {
      if d == c {
        assert OfDraft(after.messages[n], c, after.clients[c]);
      } else {
        OtherClientKeeps(d, w.clients[d], w.messages, after.messages[n]);
      }
    }
  }

  lemma UnansweredCreatesNothing(t: Tables, messages: seq<Message>, msg: Message)
    requires NotesSent(t, messages) && CreatedOnce(messages) && msg.reply.None?
    ensures NotesSent(t, messages + [msg]) && CreatedOnce(messages + [msg])
  {
    forall id | id in t.notes ensures Sent(messages + [msg], id, t.notes[id]) {
      assert Sent(messages, id, t.notes[id]);
      var i :| 0 <= i < |messages| && Creates(messages[i], id, t.notes[id]);
      assert (messages + [msg])[i] == messages[i];
    }
  }

  lemma PostedInv(w: World, c: nat)
    requires SendingInv(w) && c in w.clients
    ensures SendingInv(Posted(w, c))
  {
    var after, n := Posted(w, c), |w.messages|;
    if Sendable(w.clients[c]) {
      assert ClientGood(c, w.clients[c], w.messages);
      PostedIds(w, c);
      PostedClients(w, c);
      UnansweredCreatesNothing(w.tables, w.messages, after.messages[n]);
    }
  }

  lemma OtherClientKeeps(d: nat, client: Client, messages: seq<Message>, msg: Message)
    requires ClientGood(d, client, messages) && msg.client != d
    ensures ClientGood(d, client, messages + [msg])
  {
    var more := messages + [msg];
    assert forall i :: 0 <= i < |messages| ==> more[i] == messages[i];
    if client.postId.Some? {
      var i :| 0 <= i < |messages| && OfDraft(messages[i], d, client);
      assert OfDraft(more[i], d, client);
    }
  }

  /** What a message's answer changes in the invariant: nothing about drafts and ids. */
  lemma AnsweredKeepsDrafts(w: World, m: nat, reply: Reply)
    requires IdsPerDraft(w.messages) && ClientsGood(w) && m < |w.messages|
    ensures var after := w.messages[m := w.messages[m].(reply := Some(reply))];
      IdsPerDraft(after) && ClientsGood(w.(messages := after))
  {
    var after := w.messages[m := w.messages[m].(reply := Some(reply))];
    assert forall i :: 0 <= i < |after| ==> after[i].(reply := None) == w.messages[i].(reply := None);
    forall c | c in w.clients ensures ClientGood(c, w.clients[c], after) {
      assert ClientGood(c, w.clients[c], w.messages);
      if w.clients[c].postId.Some? {
        var i :| 0 <= i < |after| && OfDraft(w.messages[i], c, w.clients[c]);
        assert OfDraft(after[i], c, w.clients[c]);
      }
    }
  }

  lemma StillSent(messages: seq<Message>, m: nat, answered: Message, id: nat, note: Note)
    requires Sent(messages, id, note) && m < |messages| && messages[m].reply.None?
    ensures Sent(messages[m := answered], id, note)
  {
    var i :| 0 <= i < |messages| && Creates(messages[i], id, note);
    assert messages[m := answered][i] == messages[i];
  }

  lemma ServerCreateStores(w: World, m: nat, at: int)
    requires NotesSent(w.tables, w.messages) && m < |w.messages| && w.messages[m].reply.None?
    ensures NotesSent(Step(w, ServerCreate(m, at)).tables, Step(w, ServerCreate(m, at)).messages)
  {
    var after := Step(w, ServerCreate(m, at));
    forall id | id in after.tables.notes ensures Sent(after.messages, id, after.tables.notes[id]) {
      if id in w.tables.notes {
        StillSent(w.messages, m, after.messages[m], id, w.tables.notes[id]);
      } else {
        assert Creates(after.messages[m], id, after.tables.notes[id]);
      }
    }
  }

  lemma ServerCreatesOnce(w: World, m: nat, at: int)
    requires MessagesGood(w) && CreatedOnce(w.messages) && m < |w.messages| && w.messages[m].reply.None?
    ensures CreatedOnce(Step(w, ServerCreate(m, at)).messages)
  {
    var after, msg := Step(w, ServerCreate(m, at)), w.messages[m];
    forall i | 0 <= i < |w.messages| && i != m && after.messages[i].reply == Some(Created)
      ensures after.messages[m].reply == Some(Created) ==> after.messages[i].id != msg.id
    {
      assert AnswerGood(w.messages[i], w.tables);
    }
  }

  lemma ServerCreateAnswers(w: World, m: nat, at: int)
    requires MessagesGood(w) && m < |w.messages| && w.messages[m].reply.None?
    ensures MessagesGood(Step(w, ServerCreate(m, at)))
  {
    var after := Step(w, ServerCreate(m, at));
    forall i | 0 <= i < |w.messages| ensures AnswerGood(after.messages[i], after.tables) {
      assert AnswerGood(w.messages[i], w.tables);
    }
  }

  lemma ServerCreateInv(w: World, m: nat, at: int)
    requires SendingInv(w) && m < |w.messages| && w.messages[m].reply.None?
    ensures SendingInv(Step(w, ServerCreate(m, at)))
  {
    var msg := w.messages[m];
    AnsweredKeepsDrafts(w, m, CreateReply(w.tables, msg.id, msg.author, msg.content));
    ServerCreateStores(w, m, at);
    ServerCreatesOnce(w, m, at);
    ServerCreateAnswers(w, m, at);
  }

  lemma ReadKeeps(t: Tables, id: nat, user: string, at: int)
    requires GoodTables(t)
    ensures GoodTables(ReadTables(t, id, user, at)) && TablesKept(t, ReadTables(t, id, user, at))
  {
  }

  lemma StepKeeps(w: World, e: Event)
    requires GoodTables(w.tables)
    ensures GoodTables(Step(w, e).tables) && TablesKept(w.tables, Step(w, e).tables)
  {
    match e {
      case ServerCreate(m, at) =>
        KeptUnchanged(w.tables);
        if m < |w.messages| && w.messages[m].reply.None? {
          CreateKeeps(w.tables, w.messages[m].id, w.messages[m].author, w.messages[m].content, at);
        }
      case StatusRequest(id, to, version, actor, at) => StatusKeeps(w.tables, id, to, version, actor, at);
      case ReadRequest(id, user, at) => ReadKeeps(w.tables, id, user, at);
      case _ => KeptUnchanged(w.tables);
    }
  }

  predicate AtClient(e: Event) {
    e.SignIn? || e.Edit? || e.ClearClick? || e.ReplyArrives? || e.ReplyLost?
  }

  lemma ClientEventSends(w: World, e: Event)
    requires SendingInv(w) && AtClient(e)
    ensures SendingInv(Step(w, e))
  {
    match e {
      case SignIn(c, author) => if c !in w.clients { ClientStepInv(w, c, Client(author, EMPTY, 0, None, None)); }
      case Edit(c, content) =>
        if c in w.clients && w.clients[c].sent.None? { ClientStepInv(w, c, w.clients[c].(content := content)); }
      case ClearClick(c) => if c in w.clients { ClientStepInv(w, c, FreshDraft(w.clients[c])); }
      case ReplyArrives(c) =>
        if c in w.clients {
          ClientStepInv(w, c, FreshDraft(w.clients[c]));
          ClientStepInv(w, c, w.clients[c].(sent := None));
        }
      case ReplyLost(c) => if c in w.clients { ClientStepInv(w, c, w.clients[c].(sent := None)); }
    }
  }

  lemma StepSends(w: World, e: Event)
    requires SendingInv(w) && TablesKept(w.tables, Step(w, e).tables)
    ensures SendingInv(Step(w, e))
  {
    if AtClient(e) {
      ClientEventSends(w, e);
    } else if e.PostClick? {
      if e.c in w.clients { PostedInv(w, e.c); }
    } else if e.ServerCreate? {
      if e.m < |w.messages| && w.messages[e.m].reply.None? { ServerCreateInv(w, e.m, e.at); }
    } else {
      TablesStepInv(w, Step(w, e).tables);
    }
  }

  lemma {:induction false} StepInv(w: World, e: Event)
    requires Inv(w)
    ensures Inv(Step(w, e)) && TablesKept(w.tables, Step(w, e).tables)
  {
    StepKeeps(w, e);
    StepSends(w, e);
  }

  lemma {:induction false} RunInv(events: seq<Event>)
    ensures Inv(Run(START, events))
  {
    if events != [] {
      RunInv(events[..|events| - 1]);
      StepInv(Run(START, events[..|events| - 1]), events[|events| - 1]);
    }
  }

  // ----- main results ----------------------------------------------------------------------------------------

  /** Over retries, late arrivals and lost replies: two messages carry one id exactly when
      they are tries of one draft; at most one try of a draft creates a note; and a try
      answered with success carries exactly what is stored. */
  lemma OneNotePerDraft(events: seq<Event>, i: nat, j: nat)
    requires i < |Run(START, events).messages| && j < |Run(START, events).messages|
    ensures var w := Run(START, events);
      var a, b, notes := w.messages[i], w.messages[j], w.tables.notes;
      && (a.id == b.id <==> SameDraft(a, b))
      && (SameDraft(a, b) && a.reply == b.reply == Some(Created) ==> i == j)
      && (a.reply.Some? && Success(a.reply.value) ==>
            a.id in notes && notes[a.id].author == a.author && notes[a.id].content == a.content)
  {
    RunInv(events);
    assert AnswerGood(Run(START, events).messages[i], Run(START, events).tables);
  }

  /** What an answer means: success exactly if the stored note has the author and content of
      the message, a conflict otherwise; and `Created` says that this message stored it. */
  lemma AnswerMeans(events: seq<Event>, i: nat)
    requires i < |Run(START, events).messages| && Run(START, events).messages[i].reply.Some?
    ensures var (msg, notes) := (Run(START, events).messages[i], Run(START, events).tables.notes);
      && msg.id in notes
      && ((notes[msg.id].author, notes[msg.id].content) == (msg.author, msg.content) <==>
          msg.reply.value in {Created, AlreadyStored})
      && (msg.reply.value in {Created, AlreadyStored} || msg.reply.value == Conflict)
  {
    RunInv(events);
    assert AnswerGood(Run(START, events).messages[i], Run(START, events).tables);
  }

  /** The first message of a draft to arrive stores its note; a later one is answered with
      success if its content is the stored one, and with a conflict if it was edited. */
  lemma DeliveryAnswers(events: seq<Event>, m: nat, at: int)
    requires m < |Run(START, events).messages| && Run(START, events).messages[m].reply.None?
    ensures var (w, after) := (Run(START, events), Step(Run(START, events), ServerCreate(m, at)));
      var msg := w.messages[m];
      && |after.messages| == |w.messages| && after.messages[m].reply.Some?
      && (after.messages[m].reply.value == Created <==> msg.id !in w.tables.notes)
      && (msg.id !in w.tables.notes ==>
            after.tables.notes == w.tables.notes[msg.id := Note(msg.author, msg.content, Active, 0, None, None)])
      && (msg.id in w.tables.notes ==>
            && after.tables == w.tables
            && (after.messages[m].reply.value == AlreadyStored <==>
                (w.tables.notes[msg.id].author, w.tables.notes[msg.id].content) == (msg.author, msg.content)))
  {
  }

  /** So a retry of a draft that was stored succeeds exactly if its content is unchanged. */
  lemma RetryAnswers(events: seq<Event>, i: nat, m: nat, at: int)
    requires i < |Run(START, events).messages| && m < |Run(START, events).messages|
    requires Run(START, events).messages[i].reply == Some(Created) && Run(START, events).messages[m].reply.None?
    requires SameDraft(Run(START, events).messages[i], Run(START, events).messages[m])
    ensures var (w, after) := (Run(START, events), Step(Run(START, events), ServerCreate(m, at)));
      after.messages[m].reply ==
      Some(if w.messages[m].content == w.messages[i].content then AlreadyStored else Conflict)
  {
    RunInv(events);
    var w := Run(START, events);
    var first, again := w.messages[i], w.messages[m];
    assert AnswerGood(first, w.tables);
    assert ClientGood(first.client, w.clients[first.client], w.messages);
  }

  /** The click that posts: one message with what the form holds, under the kept id or a new
      one, unless one is being waited for or a text is missing. */
  lemma PostClickDoes(w: World, c: nat)
    requires c in w.clients
    ensures var (client, after) := (w.clients[c], Step(w, PostClick(c)));
      if client.sent.Some? || client.content.title == "" || client.content.message == "" then after == w
      else
        |after.messages| == |w.messages| + 1 && after.messages[..|w.messages|] == w.messages &&
        var msg := after.messages[|w.messages|];
        && (msg.client, msg.draft, msg.author, msg.content) == (c, client.draft, client.author, client.content)
        && msg.reply.None? && msg.id == (if client.postId.Some? then client.postId.value else w.nextUuid)
        && after.clients == w.clients[c := client.(postId := Some(msg.id), sent := Some(|w.messages|))]
  {
  }

  /** The reply that is waited for: success begins a fresh draft, anything else keeps the
      draft and its id for another try. */
  lemma ReplyDoes(w: World, c: nat)
    requires c in w.clients && w.clients[c].sent.Some? && w.clients[c].sent.value < |w.messages|
    requires w.messages[w.clients[c].sent.value].reply.Some?
    ensures var (client, after) := (w.clients[c], Step(w, ReplyArrives(c)));
      after == w.(clients := w.clients[c :=
        if w.messages[client.sent.value].reply.value in {Created, AlreadyStored, Done}
        then Client(client.author, Content("", "", false), client.draft + 1, None, None)
        else client.(sent := None)])
    ensures Step(w, ReplyLost(c)) == w.(clients := w.clients[c := w.clients[c].(sent := None)])
  {
  }

  /** A status change takes effect exactly on a note of the given version in the other
      status, and writes all it should. */
  lemma StatusRequestDoes(w: World, id: nat, to: NoteStatus, version: nat, actor: string, at: int)
    ensures var (t, after) := (w.tables, Step(w, StatusRequest(id, to, version, actor, at)).tables);
      if id in t.notes && t.notes[id].version == version && t.notes[id].status != to then
        var who := if to == Resolved then (Some(at), Some(actor)) else (None, None);
        && after.notes == t.notes[id := t.notes[id].(status := to, version := version + 1,
                                                     resolvedAt := who.0, resolvedBy := who.1)]
        && after.changes == t.changes + [Change(id, version, to)] && after.readBy == t.readBy
      else after == t
  {
  }

  /** Marking as read records the first time, for a stored note. */
  lemma ReadRequestDoes(w: World, id: nat, user: string, at: int)
    ensures var (t, after) := (w.tables, Step(w, ReadRequest(id, user, at)).tables);
      && (after.notes, after.changes) == (t.notes, t.changes)
      && (id !in t.notes ==> after.readBy == t.readBy)
      && (id in t.notes ==>
            after.readBy == t.readBy[(id, user) := if (id, user) in t.readBy then t.readBy[(id, user)] else at])
  {
  }

  /** Every stored note was created by a message that carried exactly its payload. */
  lemma EveryNoteWasSent(events: seq<Event>, id: nat) returns (i: nat)
    requires id in Run(START, events).tables.notes
    ensures i < |Run(START, events).messages|
    ensures Creates(Run(START, events).messages[i], id, Run(START, events).tables.notes[id])
  {
    RunInv(events);
    assert Sent(Run(START, events).messages, id, Run(START, events).tables.notes[id]);
    i :| i < |Run(START, events).messages| &&
         Creates(Run(START, events).messages[i], id, Run(START, events).tables.notes[id]);
  }

  /** Every stored note is resolved exactly when its resolver and time are set; its
      version counts its status changes, which alternate and take one version each. */
  lemma EveryNoteIsGood(events: seq<Event>, id: nat)
    requires id in Run(START, events).tables.notes
    ensures var t := Run(START, events).tables;
      GoodNote(t.notes[id], ChangesOf(t.changes, id)) && (id, t.notes[id].author) in t.readBy
  {
    RunInv(events);
  }

  /** Whatever happens later, a stored note keeps its author and content, its version
      never falls, and acknowledgements keep their time. */
  lemma {:induction false} NotesAreKept(events: seq<Event>, more: seq<Event>)
    ensures TablesKept(Run(START, events).tables, Run(START, events + more).tables)
    decreases |more|
  {
    if more == [] {
      assert events + more == events;
    } else {
      var init, e := more[..|more| - 1], more[|more| - 1];
      NotesAreKept(events, init);
      RunInv(events + init);
      StepInv(Run(START, events + init), e);
      assert (events + more)[..|events + more| - 1] == events + init;
      KeptTransitive(Run(START, events).tables, Run(START, events + init).tables, Run(START, events + more).tables);
    }
  }

  lemma KeptTransitive(a: Tables, b: Tables, c: Tables)
    requires TablesKept(a, b) && TablesKept(b, c)
    ensures TablesKept(a, c)
  {
    forall id | id in a.notes ensures id in c.notes && NoteKept(a.notes[id], c.notes[id]) {
      assert NoteKept(a.notes[id], b.notes[id]) && NoteKept(b.notes[id], c.notes[id]);
    }
  }
}
