/**
 * The app's local persistence: the users, chats and messages tables, each a
 * sequence of rows in insertion order with AUTOINCREMENT ids, and the SQL
 * statements the app runs on them, as filters, appends and deletions.
 */
module Database {
  import opened Wrappers
  import opened Text

  datatype User = User(id: int, username: string, name: string, password: string)

  datatype Chat = Chat(id: int, userId: int, name: string, lastMessage: string, time: string, avatar: string)

  /** A row of the messages table; `None` is SQL NULL. */
  datatype MessageRow = MessageRow(
    id: int,
    chatId: int,
    text: string,
    isMine: int,
    time: string,
    kind: string,
    audioUri: Option<string>,
    audioDuration: Option<int>,
    fileUri: Option<string>,
    fileName: Option<string>,
    fileSize: Option<int>,
    senderId: Option<string>,
    receiverId: Option<string>)

  /** The arguments of an `addMessage` call; `None` is an argument left out. */
  datatype NewMessage = NewMessage(
    chatId: int,
    text: string,
    isMine: bool,
    time: string,
    kind: Option<string>,
    audioUri: Option<string>,
    audioDuration: Option<int>,
    fileUri: Option<string>,
    fileName: Option<string>,
    fileSize: Option<int>,
    senderId: Option<string>,
    receiverId: Option<string>)

  function UserKey(u: User): int { u.id }
  function ChatKey(c: Chat): int { c.id }
  function MessageKey(m: MessageRow): int { m.id }

  /** Rows in strictly ascending id order, so table order is `ORDER BY id ASC`. */
  ghost predicate IdsIncreasing<T>(rows: seq<T>, id: T -> int) {
    forall i, j :: 0 <= i < j < |rows| ==> id(rows[i]) < id(rows[j])
  }

  /** The AUTOINCREMENT discipline: ascending ids, all positive and below the next id to hand out. */
  ghost predicate TableOk<T>(rows: seq<T>, id: T -> int, nextId: int) {
    1 <= nextId && IdsIncreasing(rows, id) && forall i :: 0 <= i < |rows| ==> 1 <= id(rows[i]) < nextId
  }

  /** A `WHERE` clause: the rows that satisfy `keep`, in table order. */
  function Filter<T(!new)>(rows: seq<T>, keep: T -> bool): (r: seq<T>)
    ensures |r| <= |rows|
    ensures forall x :: x in r <==> x in rows && keep(x)
    decreases |rows|
  {
    if rows == [] then []
    else (if keep(rows[0]) then [rows[0]] else []) + Filter(rows[1..], keep)
  }

  /** Filtering keeps the id order, so a filtered table needs no sort to be `ORDER BY id ASC`. */
  lemma {:induction false} FilterKeepsOrder<T(!new)>(rows: seq<T>, keep: T -> bool, id: T -> int)
    requires IdsIncreasing(rows, id)
    ensures IdsIncreasing(Filter(rows, keep), id)
    decreases |rows|
  {
    if rows != [] {
      TailIncreasing(rows, id);
      FilterKeepsOrder(rows[1..], keep, id);
      var tail := Filter(rows[1..], keep);
      if keep(rows[0]) {
        ConsIncreasing(rows[0], tail, id);
        assert Filter(rows, keep) == [rows[0]] + tail;
      } else {
        assert Filter(rows, keep) == tail;
      }
    }
  }

  /** Past its first row an ascending table is still ascending, and every later id is larger. */
  lemma TailIncreasing<T>(rows: seq<T>, id: T -> int)
    requires rows != [] && IdsIncreasing(rows, id)
    ensures IdsIncreasing(rows[1..], id)
    ensures forall x :: x in rows[1..] ==> id(rows[0]) < id(x)
  {
    forall x | x in rows[1..]
      ensures id(rows[0]) < id(x)
    {
      var k :| 0 <= k < |rows[1..]| && rows[1..][k] == x;
      assert rows[k + 1] == x;
    }
  }

  /** A row with a smaller id than all of an ascending table may go in front of it. */
  lemma ConsIncreasing<T>(x: T, tail: seq<T>, id: T -> int)
    requires IdsIncreasing(tail, id)
    requires forall y :: y in tail ==> id(x) < id(y)
    ensures IdsIncreasing([x] + tail, id)
  {
    var r := [x] + tail;
    forall i, j | 0 <= i < j < |r|
      ensures id(r[i]) < id(r[j])
    {
      assert r[j] == tail[j - 1];
      if i == 0 {
        assert tail[j - 1] in tail;
      } else {
        assert r[i] == tail[i - 1];
      }
    }
  }

  /** Appending a row under the next id keeps the AUTOINCREMENT discipline. */
  lemma AppendKeepsTable<T>(rows: seq<T>, row: T, id: T -> int, nextId: int)
    requires TableOk(rows, id, nextId) && id(row) == nextId
    ensures TableOk(rows + [row], id, nextId + 1)
  {
    var r := rows + [row];
    forall i, j | 0 <= i < j < |r|
      ensures id(r[i]) < id(r[j])
    {
      if j < |rows| {
        assert r[i] == rows[i] && r[j] == rows[j];
      }
    }
    forall i | 0 <= i < |r|
      ensures 1 <= id(r[i]) < nextId + 1
    {
      if i < |rows| {
        assert r[i] == rows[i];
      }
    }
  }

  /** Filtering keeps the AUTOINCREMENT discipline. */
  lemma {:induction false} FilterKeepsTable<T(!new)>(rows: seq<T>, keep: T -> bool, id: T -> int, nextId: int)
    requires TableOk(rows, id, nextId)
    ensures TableOk(Filter(rows, keep), id, nextId)
  {
    FilterKeepsOrder(rows, keep, id);
    var r := Filter(rows, keep);
    forall i | 0 <= i < |r|
      ensures 1 <= id(r[i]) < nextId
    {
      assert r[i] in rows;
    }
  }

  /** Two conditions that agree on every row select the same rows. */
  lemma {:induction false} FilterSameCondition<T(!new)>(rows: seq<T>, p: T -> bool, q: T -> bool)
    requires forall x :: x in rows ==> p(x) == q(x)
    ensures Filter(rows, p) == Filter(rows, q)
    decreases |rows|
  {
    if rows != [] {
      assert forall x :: x in rows[1..] ==> x in rows;
      FilterSameCondition(rows[1..], p, q);
    }
  }

  /** The first row a filter returns is the first row of the table that satisfies it. */
  lemma {:induction false} FilterFirst<T(!new)>(rows: seq<T>, keep: T -> bool)
    requires Filter(rows, keep) != []
    ensures exists i :: (0 <= i < |rows| && rows[i] == Filter(rows, keep)[0] &&
      forall j :: 0 <= j < i ==> !keep(rows[j]))
    decreases |rows|
  {
    if !keep(rows[0]) {
      FilterFirst(rows[1..], keep);
      var i :| 0 <= i < |rows[1..]| && rows[1..][i] == Filter(rows[1..], keep)[0] &&
        forall j :: 0 <= j < i ==> !keep(rows[1..][j]);
      assert rows[i + 1] == Filter(rows, keep)[0];
      forall j | 0 <= j < i + 1
        ensures !keep(rows[j])
      {
        if j > 0 {
          assert rows[j] == rows[1..][j - 1];
        }
      }
    }
  }

  /** `UNIQUE` on the username column. */
  ghost predicate UniqueUsernames(users: seq<User>) {
    forall i, j :: 0 <= i < j < |users| ==> users[i].username != users[j].username
  }

  // ----- queries -----

  /** `loginUser`: the first user whose username and password both match, or null. */
  function LoginUser(users: seq<User>, username: string, password: string): (r: Option<User>)
    ensures r.Some? <==> exists u :: u in users && u.username == username && u.password == password
    ensures r.Some? ==> (exists i :: (0 <= i < |users| && users[i] == r.value &&
      r.value.username == username && r.value.password == password &&
      forall j :: 0 <= j < i ==> !(users[j].username == username && users[j].password == password)))
  {
    var matching := (u: User) => u.username == username && u.password == password;
    var found := Filter(users, matching);
    if found == [] then None
    else
      FilterFirst(users, matching);
      assert found[0] in found;
      Some(found[0])
  }

  /** Under the unique username, logging in with a stored user's credentials finds exactly that user. */
  lemma {:induction false} LoginFindsRegisteredUser(users: seq<User>, i: nat)
    requires UniqueUsernames(users) && i < |users|
    ensures LoginUser(users, users[i].username, users[i].password) == Some(users[i])
  {
    var r := LoginUser(users, users[i].username, users[i].password);
    assert users[i] in users;
    var k :| 0 <= k < |users| && users[k] == r.value && r.value.username == users[i].username;
    assert k == i;
  }

  /** `getChats(userId?)`: every chat, or only the chats of the given owner. */
  function GetChats(chats: seq<Chat>, userId: Option<int>): (r: seq<Chat>)
    ensures forall c :: c in r <==> c in chats && (userId.None? || c.userId == userId.value)
  {
    match userId
    case None => chats
    case Some(owner) => Filter(chats, (c: Chat) => c.userId == owner)
  }

  /** `getMessagesForChat(chatId)`: the chat's messages. */
  function GetMessagesForChat(messages: seq<MessageRow>, chatId: int): (r: seq<MessageRow>)
    ensures forall m :: m in r <==> m in messages && m.chatId == chatId
  {
    Filter(messages, (m: MessageRow) => m.chatId == chatId)
  }

  /** The condition of `getMessagesBetweenUsers`: a message between the two users, or one sent to 'all'. */
  predicate BetweenOrToAll(m: MessageRow, a: string, b: string) {
    (m.senderId == Some(a) && m.receiverId == Some(b)) ||
    (m.senderId == Some(b) && m.receiverId == Some(a)) ||
    m.receiverId == Some("all")
  }

  /** `getMessagesBetweenUsers(a, b)`: the conversation of two users and every broadcast message. */
  function GetMessagesBetweenUsers(messages: seq<MessageRow>, a: string, b: string): (r: seq<MessageRow>)
    ensures forall m :: m in r <==> m in messages && BetweenOrToAll(m, a, b)
    ensures forall m :: m in messages && m.receiverId == Some("all") ==> m in r
  {
    Filter(messages, (m: MessageRow) => BetweenOrToAll(m, a, b))
  }

  /** The conversation query is symmetric in the two users. */
  lemma MessagesBetweenSymmetric(messages: seq<MessageRow>, a: string, b: string)
    ensures GetMessagesBetweenUsers(messages, a, b) == GetMessagesBetweenUsers(messages, b, a)
  {
    FilterSameCondition(messages,
      (m: MessageRow) => BetweenOrToAll(m, a, b),
      (m: MessageRow) => BetweenOrToAll(m, b, a));
  }

  /** Over a well-formed messages table, both message queries come back in ascending id order. */
  lemma MessageQueriesOrdered(messages: seq<MessageRow>, chatId: int, a: string, b: string)
    requires IdsIncreasing(messages, MessageKey)
    ensures IdsIncreasing(GetMessagesForChat(messages, chatId), MessageKey)
    ensures IdsIncreasing(GetMessagesBetweenUsers(messages, a, b), MessageKey)
  {
    FilterKeepsOrder(messages, (m: MessageRow) => m.chatId == chatId, MessageKey);
    FilterKeepsOrder(messages, (m: MessageRow) => BetweenOrToAll(m, a, b), MessageKey);
  }

  // ----- what `addMessage` stores -----

  /** `s || null` for an optional string: an empty string is stored as NULL too. */
  function StringOrNull(s: Option<string>): (r: Option<string>)
    ensures r.None? <==> !Truthy(s)
    ensures r.Some? ==> r == s
  {
    if Truthy(s) then s else None
  }

  /** `n || null` for an optional number: 0 is stored as NULL too. */
  function NumberOrNull(n: Option<int>): (r: Option<int>)
    ensures r.None? <==> n.None? || n == Some(0)
    ensures r.Some? ==> r == n
  {
    if n.Some? && n.value != 0 then n else None
  }

  /** The row `addMessage` inserts under id `id`. */
  function StoredMessage(id: int, a: NewMessage): (m: MessageRow)
    ensures m.id == id && m.chatId == a.chatId && m.text == a.text && m.time == a.time
    ensures m.isMine == 1 <==> a.isMine
    ensures m.isMine == 0 <==> !a.isMine
    ensures m.kind == if a.kind.Some? then a.kind.value else "text"
    ensures m.audioUri == StringOrNull(a.audioUri) && m.fileUri == StringOrNull(a.fileUri)
    ensures m.fileName == StringOrNull(a.fileName)
    ensures m.senderId == StringOrNull(a.senderId) && m.receiverId == StringOrNull(a.receiverId)
    ensures m.audioDuration == NumberOrNull(a.audioDuration) && m.fileSize == NumberOrNull(a.fileSize)
  {
    MessageRow(id, a.chatId, a.text, if a.isMine then 1 else 0, a.time, a.kind.GetOr("text"),
      StringOrNull(a.audioUri), NumberOrNull(a.audioDuration), StringOrNull(a.fileUri),
      StringOrNull(a.fileName), NumberOrNull(a.fileSize), StringOrNull(a.senderId), StringOrNull(a.receiverId))
  }

  // ----- deletions -----

  /** `DELETE FROM messages WHERE id = ?`. */
  function WithoutMessage(messages: seq<MessageRow>, messageId: int): (r: seq<MessageRow>)
    ensures forall m :: m in r <==> m in messages && m.id != messageId
  {
    Filter(messages, (m: MessageRow) => m.id != messageId)
  }

  /** `DELETE FROM chats WHERE id = ?`. */
  function WithoutChat(chats: seq<Chat>, chatId: int): (r: seq<Chat>)
    ensures forall c :: c in r <==> c in chats && c.id != chatId
  {
    Filter(chats, (c: Chat) => c.id != chatId)
  }

  /** `DELETE FROM messages WHERE chatId = ?`. */
  function WithoutChatMessages(messages: seq<MessageRow>, chatId: int): (r: seq<MessageRow>)
    ensures forall m :: m in r <==> m in messages && m.chatId != chatId
  {
    Filter(messages, (m: MessageRow) => m.chatId != chatId)
  }

  /** Over ascending ids, filtering out one id removes at most one row. */
  lemma {:induction false} FilterOutIdRemovesAtMostOne<T(!new)>(rows: seq<T>, id: T -> int, key: int, keep: T -> bool)
    requires IdsIncreasing(rows, id)
    requires forall x :: keep(x) <==> id(x) != key
    ensures |Filter(rows, keep)| >= |rows| - 1
    decreases |rows|
  {
    if rows != [] {
      FilterOutIdRemovesAtMostOne(rows[1..], id, key, keep);
      if id(rows[0]) == key {
        var rest := rows[1..];
        forall i | 0 <= i < |rest|
          ensures keep(rest[i])
        {
          assert id(rows[0]) < id(rows[i + 1]);
        }
        FilterAll(rest, keep);
      }
    }
  }

  /** Over well-formed tables, `deleteMessage` and `deleteChat` each remove at most one row by id. */
  lemma DeleteRemovesAtMostOne(messages: seq<MessageRow>, chats: seq<Chat>, messageId: int, chatId: int)
    requires IdsIncreasing(messages, MessageKey) && IdsIncreasing(chats, ChatKey)
    ensures |WithoutMessage(messages, messageId)| >= |messages| - 1
    ensures |WithoutChat(chats, chatId)| >= |chats| - 1
  {
    FilterOutIdRemovesAtMostOne(messages, MessageKey, messageId, (m: MessageRow) => m.id != messageId);
    FilterOutIdRemovesAtMostOne(chats, ChatKey, chatId, (c: Chat) => c.id != chatId);
  }

  /** A filter that every row passes returns the table. */
  lemma {:induction false} FilterAll<T(!new)>(rows: seq<T>, keep: T -> bool)
    requires forall i :: 0 <= i < |rows| ==> keep(rows[i])
    ensures Filter(rows, keep) == rows
    decreases |rows|
  {
    if rows != [] {
      FilterAll(rows[1..], keep);
    }
  }

  // ----- the partners of a user (`ensureChatsForUser`, first loop) -----

  /** The condition of the first query of `ensureChatsForUser`: a one-to-one message the owner takes part in. */
  predicate OneToOne(m: MessageRow, owner: string) {
    (m.senderId == Some(owner) || m.receiverId == Some(owner)) &&
    m.senderId.Some? && m.receiverId.Some? && m.receiverId != Some("all")
  }

  /** The id a row contributes as the owner's partner: the non-empty other side of a message the owner sent or received. */
  predicate Contributes(m: MessageRow, owner: string, partner: string) {
    (m.senderId == Some(owner) && Truthy(m.receiverId) && m.receiverId.value == partner) ||
    (m.receiverId == Some(owner) && Truthy(m.senderId) && m.senderId.value == partner)
  }

  /** `set.add(x)` on a JavaScript `Set`, which iterates in insertion order. */
  function SetAdd(xs: seq<string>, x: string): (r: seq<string>)
    ensures forall y :: y in r <==> y in xs || y == x
  {
    if x in xs then xs else xs + [x]
  }

  /** One pass of the loop body: the receiver when the owner sent it, then the sender when the owner received it. */
  function AddRowPartners(found: seq<string>, m: MessageRow, owner: string): seq<string> {
    var afterReceiver := if m.senderId == Some(owner) && Truthy(m.receiverId) then SetAdd(found, m.receiverId.value) else found;
    if m.receiverId == Some(owner) && Truthy(m.senderId) then SetAdd(afterReceiver, m.senderId.value) else afterReceiver
  }

  function AddPartners(found: seq<string>, rows: seq<MessageRow>, owner: string): seq<string>
    decreases |rows|
  {
    if rows == [] then found else AddPartners(AddRowPartners(found, rows[0], owner), rows[1..], owner)
  }

  /** The `otherUserIds` set `ensureChatsForUser` builds, in its iteration order. */
  function Partners(messages: seq<MessageRow>, owner: string): seq<string> {
    AddPartners([], Filter(messages, (m: MessageRow) => OneToOne(m, owner)), owner)
  }

  ghost predicate NoDuplicates(xs: seq<string>) {
    forall i, j :: 0 <= i < j < |xs| ==> xs[i] != xs[j]
  }

  lemma {:induction false} AddPartnersContents(found: seq<string>, rows: seq<MessageRow>, owner: string)
    requires NoDuplicates(found)
    ensures NoDuplicates(AddPartners(found, rows, owner))
    ensures forall p :: p in AddPartners(found, rows, owner) <==>
      p in found || exists m :: m in rows && Contributes(m, owner, p)
    decreases |rows|
  {
    if rows != [] {
      var next := AddRowPartners(found, rows[0], owner);
      assert NoDuplicates(next);
      AddPartnersContents(next, rows[1..], owner);
      forall p
        ensures p in AddPartners(found, rows, owner) <==> p in found || exists m :: m in rows && Contributes(m, owner, p)
      {
        if p in AddPartners(found, rows, owner) && p !in found {
          if p in next {
            assert Contributes(rows[0], owner, p);
          } else {
            var m :| m in rows[1..] && Contributes(m, owner, p);
            assert m in rows;
          }
        }
        if exists m :: m in rows && Contributes(m, owner, p) {
          var m :| m in rows && Contributes(m, owner, p);
          if m != rows[0] {
            assert m in rows[1..];
          }
        }
      }
    }
  }

  /**
   * The ids collected are exactly the other parties of the owner's one-to-one
   * messages: each comes from a row with both ids present and a receiver
   * other than 'all', every such other party (when non-empty) is collected,
   * and none is collected twice.
   */
  lemma PartnersAreCounterparts(messages: seq<MessageRow>, owner: string)
    ensures NoDuplicates(Partners(messages, owner))
    ensures forall p :: p in Partners(messages, owner) <==>
      exists m :: m in messages && OneToOne(m, owner) && Contributes(m, owner, p)
  {
    var rows := Filter(messages, (m: MessageRow) => OneToOne(m, owner));
    AddPartnersContents([], rows, owner);
  }

  // ----- creating the chat rows (`ensureChatsForUser`, second loop, and `ensureChatForIncomingMessage`) -----

  /** `Number(id.replace('user_', ''))` when finite, for digit strings (the empty string is 0). */
  function UserNumber(suffix: string): Option<int> {
    if AllDigits(suffix) then Some(DigitsValue(suffix)) else None
  }

  /** The suffix of an id `user_<n>` made from a number reads back as that number. */
  lemma UserNumberOfNatToString(n: nat)
    ensures UserNumber(NatToString(n)) == Some(n)
  {
    DigitsValueOfNatToString(n);
  }

  /** `SELECT * FROM users WHERE id = ?`, first row. */
  function FindUserById(users: seq<User>, id: int): (r: Option<User>)
    ensures r.Some? ==> r.value in users && r.value.id == id
    ensures r.None? <==> forall u :: u in users ==> u.id != id
    ensures forall k :: 0 <= k < |users| && users[k].id == id && (forall j :: 0 <= j < k ==> users[j].id != id) ==>
      r == Some(users[k])
  {
    var matching := (u: User) => u.id == id;
    var found := Filter(users, matching);
    if found == [] then None
    else
      FilterFirst(users, matching);
      assert found[0] in found;
      Some(found[0])
  }

  /** Over ascending ids, the user found by id is the stored user with that id. */
  lemma FindUserByUniqueId(users: seq<User>, id: int)
    requires IdsIncreasing(users, UserKey)
    ensures forall u :: u in users && u.id == id ==> FindUserById(users, id) == Some(u)
  {
    forall u | u in users && u.id == id
      ensures FindUserById(users, id) == Some(u)
    {
      var k :| 0 <= k < |users| && users[k] == u;
      assert forall j :: 0 <= j < k ==> UserKey(users[j]) < UserKey(users[k]);
    }
  }

  /**
   * The name of the chat made for another user's id: none unless the id is
   * `user_` followed by a number; otherwise that user's name, or the id
   * itself when there is no such user or the name is empty.
   */
  function ChatNameFor(users: seq<User>, otherId: string): (r: Option<string>)
    ensures !StartsWith(otherId, "user_") ==> r.None?
    ensures StartsWith(otherId, "user_") && UserNumber(otherId[5..]).None? ==> r.None?
    ensures StartsWith(otherId, "user_") && UserNumber(otherId[5..]).Some? ==> (
      var n := UserNumber(otherId[5..]).value;
      ((forall u :: u in users ==> u.id != n) ==> r == Some(otherId)) &&
      (forall k :: 0 <= k < |users| && users[k].id == n && (forall j :: 0 <= j < k ==> users[j].id != n) ==>
        r == Some(if users[k].name != "" then users[k].name else otherId)))
    ensures r.Some? ==> (r.value != "" &&
      (r.value == otherId || exists u :: u in users && u.name == r.value))
  {
    if !StartsWith(otherId, "user_") then None
    else
      match UserNumber(otherId[5..])
      case None => None
      case Some(n) =>
        var other := FindUserById(users, n);
        Some(if other.Some? && other.value.name != "" then other.value.name else otherId)
  }
  /**
   * Over ascending user ids, the id `user_<n>` names its chat after the user
   * with id n when that user has a non-empty name, and after itself otherwise.
   */
  lemma ChatNameForUserId(users: seq<User>, n: nat)
    requires IdsIncreasing(users, UserKey)
    ensures var otherId := "user_" + NatToString(n);
      ((forall u :: u in users ==> u.id != n) ==> ChatNameFor(users, otherId) == Some(otherId)) &&
      (forall u :: u in users && u.id == n ==>
        ChatNameFor(users, otherId) == Some(if u.name != "" then u.name else otherId))
  {
    var otherId := "user_" + NatToString(n);
    assert otherId[..5] == "user_" && otherId[5..] == NatToString(n);
    UserNumberOfNatToString(n);
    FindUserByUniqueId(users, n);
  }


  /** `SELECT * FROM chats WHERE userId = ? AND name = ? LIMIT 1` finds a row. */
  ghost predicate HasChat(chats: seq<Chat>, owner: int, name: string) {
    exists c :: c in chats && c.userId == owner && c.name == name
  }

  /** The row `addChat(name, 'Son Mesaj Yok', '', '', owner)` inserts under id `id`. */
  function NewChat(id: int, owner: int, name: string): Chat {
    Chat(id, owner, name, "Son Mesaj Yok", "", "")
  }

  /** The chats table after making sure `owner` has a chat named `name`, when there is a name. */
  ghost function EnsureChat(chats: seq<Chat>, nextId: int, owner: int, name: Option<string>): (r: seq<Chat>)
    ensures r == chats || (name.Some? && r == chats + [NewChat(nextId, owner, name.value)])
    ensures |r| >= |chats| && r[..|chats|] == chats
  {
    match name
    case None => chats
    case Some(n) => if HasChat(chats, owner, n) then chats else chats + [NewChat(nextId, owner, n)]
  }

  /** A row is added only when the owner has no chat of that name, and afterwards there is one. */
  lemma EnsureChatProvides(chats: seq<Chat>, nextId: int, owner: int, name: Option<string>)
    ensures EnsureChat(chats, nextId, owner, name) != chats ==> !HasChat(chats, owner, name.value)
    ensures name.Some? ==> HasChat(EnsureChat(chats, nextId, owner, name), owner, name.value)
  {
    var r := EnsureChat(chats, nextId, owner, name);
    if r != chats {
      assert r[|chats|] in r;
    }
  }

  /** The chat name made for each id in turn. */
  function ChatNames(users: seq<User>, others: seq<string>): (names: seq<Option<string>>)
    ensures |names| == |others|
    ensures forall k :: 0 <= k < |others| ==> names[k] == ChatNameFor(users, others[k])
  {
    seq(|others|, k requires 0 <= k < |others| => ChatNameFor(users, others[k]))
  }

  /** The chats table after making sure `owner` has a chat for each name in turn. */
  ghost function EnsureAll(chats: seq<Chat>, nextId: int, owner: int, names: seq<Option<string>>): seq<Chat>
    decreases |names|
  {
    if names == [] then chats
    else
      var after := EnsureChat(chats, nextId, owner, names[0]);
      EnsureAll(after, nextId + |after| - |chats|, owner, names[1..])
  }

  /** The fold's first step. */
  lemma EnsureAllUnfold(chats: seq<Chat>, nextId: int, owner: int, names: seq<Option<string>>)
    requires names != []
    ensures var after := EnsureChat(chats, nextId, owner, names[0]);
      EnsureAll(chats, nextId, owner, names) == EnsureAll(after, nextId + |after| - |chats|, owner, names[1..])
  {
  }

  /** One step of the fold, from position `j` of the names. */
  lemma EnsureAllStep(after: seq<Chat>, nextAfter: int, chats: seq<Chat>, nextId: int, owner: int, names: seq<Option<string>>, j: nat)
    requires j < |names| && after == EnsureChat(chats, nextId, owner, names[j])
    requires nextAfter == nextId + |after| - |chats|
    ensures EnsureAll(chats, nextId, owner, names[j..]) == EnsureAll(after, nextAfter, owner, names[j + 1..])
  {
    assert names[j..][1..] == names[j + 1..];
  }

  /** Ensuring only ever appends: earlier rows stay as they were. */
  lemma {:induction false} EnsureAllAppends(chats: seq<Chat>, nextId: int, owner: int, names: seq<Option<string>>)
    ensures var r := EnsureAll(chats, nextId, owner, names);
      |r| >= |chats| && r[..|chats|] == chats
    decreases |names|
  {
    if names != [] {
      var after := EnsureChat(chats, nextId, owner, names[0]);
      var n' := nextId + |after| - |chats|;
      EnsureAllAppends(after, n', owner, names[1..]);
      var r := EnsureAll(after, n', owner, names[1..]);
      assert r[..|chats|] == r[..|after|][..|chats|];
    }
  }

  lemma {:induction false} HasChatPersists(chats: seq<Chat>, nextId: int, owner: int, names: seq<Option<string>>, name: string)
    requires HasChat(chats, owner, name)
    ensures HasChat(EnsureAll(chats, nextId, owner, names), owner, name)
  {
    EnsureAllAppends(chats, nextId, owner, names);
    var r := EnsureAll(chats, nextId, owner, names);
    var c :| c in chats && c.userId == owner && c.name == name;
    var k :| 0 <= k < |chats| && chats[k] == c;
    assert r[k] == r[..|chats|][k];
  }

  /** Afterwards, the owner has a chat for every name. */
  lemma {:induction false} EnsureAllCovers(chats: seq<Chat>, nextId: int, owner: int, names: seq<Option<string>>)
    ensures forall k :: 0 <= k < |names| && names[k].Some? ==>
      HasChat(EnsureAll(chats, nextId, owner, names), owner, names[k].value)
    decreases |names|
  {
    if names != [] {
      var after := EnsureChat(chats, nextId, owner, names[0]);
      var n' := nextId + |after| - |chats|;
      EnsureAllCovers(after, n', owner, names[1..]);
      EnsureChatProvides(chats, nextId, owner, names[0]);
      var r := EnsureAll(after, n', owner, names[1..]);
      if names[0].Some? {
        HasChatPersists(after, n', owner, names[1..], names[0].value);
      }
      CoversStep(r, owner, names);
    }
  }

  /** Covering the first name and the rest is covering them all. */
  lemma CoversStep(r: seq<Chat>, owner: int, names: seq<Option<string>>)
    requires names != []
    requires names[0].Some? ==> HasChat(r, owner, names[0].value)
    requires forall k :: 0 <= k < |names[1..]| && names[1..][k].Some? ==> HasChat(r, owner, names[1..][k].value)
    ensures forall k :: 0 <= k < |names| && names[k].Some? ==> HasChat(r, owner, names[k].value)
  {
    forall k | 0 <= k < |names| && names[k].Some?
      ensures HasChat(r, owner, names[k].value)
    {
      if k > 0 {
        assert names[k] == names[1..][k - 1];
      }
    }
  }

  /** When every name is already there, ensuring changes nothing. */
  lemma {:induction false} EnsureAllNoOp(chats: seq<Chat>, nextId: int, owner: int, names: seq<Option<string>>)
    requires forall k :: 0 <= k < |names| && names[k].Some? ==> HasChat(chats, owner, names[k].value)
    ensures EnsureAll(chats, nextId, owner, names) == chats
    decreases |names|
  {
    if names != [] {
      assert forall k :: 0 <= k < |names[1..]| ==> names[1..][k] == names[k + 1];
      EnsureAllNoOp(chats, nextId, owner, names[1..]);
    }
  }

  /** Ensuring is idempotent: a second pass over the same names, whatever the next id, adds no row. */
  lemma EnsureAllIdempotent(chats: seq<Chat>, nextId: int, nextId': int, owner: int, names: seq<Option<string>>)
    ensures var once := EnsureAll(chats, nextId, owner, names);
      EnsureAll(once, nextId', owner, names) == once
  {
    EnsureAllCovers(chats, nextId, owner, names);
    EnsureAllNoOp(EnsureAll(chats, nextId, owner, names), nextId', owner, names);
  }

  /**
   * Every row ensuring adds belongs to the owner, carries 'Son Mesaj Yok',
   * an empty time and avatar, the next ids in turn, and one of the names.
   */
  lemma {:induction false} EnsureAllNewRows(chats: seq<Chat>, nextId: int, owner: int, names: seq<Option<string>>)
    ensures AddedRows(chats, EnsureAll(chats, nextId, owner, names), nextId, owner, names)
    decreases |names|
  {
    if names != [] {
      var after := EnsureChat(chats, nextId, owner, names[0]);
      var n' := nextId + |after| - |chats|;
      EnsureAllNewRows(after, n', owner, names[1..]);
      EnsureAllAppends(after, n', owner, names[1..]);
      var r := EnsureAll(after, n', owner, names[1..]);
      EnsureAllUnfold(chats, nextId, owner, names);
      NewRowsStep(chats, after, r, nextId, n', owner, names);
    }
  }

  /**
   * `r` is `chats` followed by new rows of `owner`, each named after one of
   * `names`, under the ids counted up from `nextId`.
   */
  ghost predicate AddedRows(chats: seq<Chat>, r: seq<Chat>, nextId: int, owner: int, names: seq<Option<string>>) {
    |r| >= |chats| &&
    forall i :: |chats| <= i < |r| ==>
      r[i] == NewChat(nextId + i - |chats|, owner, r[i].name) && Some(r[i].name) in names
  }

  /** The rows one step adds, followed by the rows the rest of the fold adds, are all new rows. */
  lemma NewRowsStep(chats: seq<Chat>, after: seq<Chat>, r: seq<Chat>, nextId: int, nextAfter: int, owner: int, names: seq<Option<string>>)
    requires names != [] && after == EnsureChat(chats, nextId, owner, names[0])
    requires nextAfter == nextId + |after| - |chats|
    requires AddedRows(after, r, nextAfter, owner, names[1..])
    requires r[..|after|] == after
    ensures AddedRows(chats, r, nextId, owner, names)
  {
    forall i | |chats| <= i < |r|
      ensures r[i] == NewChat(nextId + i - |chats|, owner, r[i].name) && Some(r[i].name) in names
    {
      if i < |after| {
        assert after != chats && i == |chats|;
        assert r[i] == r[..|after|][i] == after[i] == NewChat(nextId, owner, names[0].value);
        assert names[0] in names;
      } else {
        assert Some(r[i].name) in names[1..];
      }
    }
  }

  /**
   * For the names made from a list of ids: a second pass adds nothing, and
   * every added chat is named after an id of the list that starts with
   * `user_` (ids without that prefix never lead to a chat).
   */
  lemma EnsureManyForIds(chats: seq<Chat>, nextId: int, nextId': int, users: seq<User>, owner: int, others: seq<string>)
    ensures var once := EnsureAll(chats, nextId, owner, ChatNames(users, others));
      EnsureAll(once, nextId', owner, ChatNames(users, others)) == once &&
      forall i :: |chats| <= i < |once| ==>
        once[i] == NewChat(nextId + i - |chats|, owner, once[i].name) &&
        exists p :: p in others && StartsWith(p, "user_") && ChatNameFor(users, p) == Some(once[i].name)
  {
    var names := ChatNames(users, others);
    EnsureAllIdempotent(chats, nextId, nextId', owner, names);
    EnsureAllNewRows(chats, nextId, owner, names);
    var once := EnsureAll(chats, nextId, owner, names);
    forall i | |chats| <= i < |once|
      ensures exists p :: p in others && StartsWith(p, "user_") && ChatNameFor(users, p) == Some(once[i].name)
    {
      var k :| 0 <= k < |names| && names[k] == Some(once[i].name);
      assert others[k] in others;
    }
  }

  /** Every partner that passes the `user_` gate ends up with a chat of its name. */
  lemma EnsureManyCoversIds(chats: seq<Chat>, nextId: int, users: seq<User>, owner: int, others: seq<string>)
    ensures forall p :: p in others && ChatNameFor(users, p).Some? ==>
      HasChat(EnsureAll(chats, nextId, owner, ChatNames(users, others)), owner, ChatNameFor(users, p).value)
  {
    var names := ChatNames(users, others);
    EnsureAllCovers(chats, nextId, owner, names);
    forall p | p in others && ChatNameFor(users, p).Some?
      ensures HasChat(EnsureAll(chats, nextId, owner, names), owner, ChatNameFor(users, p).value)
    {
      var k :| 0 <= k < |others| && others[k] == p;
      assert names[k] == ChatNameFor(users, p);
    }
  }

  /** The first half of `ensureChatsForUser`: the loop that collects the owner's partners. */
  method OtherUserIds(messages: seq<MessageRow>, owner: string) returns (otherUserIds: seq<string>)
    ensures otherUserIds == Partners(messages, owner)
  {
    var rows := Filter(messages, (m: MessageRow) => OneToOne(m, owner));
    otherUserIds := [];
    var i := 0;
    while i < |rows|
      invariant 0 <= i <= |rows|
      invariant AddPartners(otherUserIds, rows[i..], owner) == Partners(messages, owner)
    {
      assert rows[i..][1..] == rows[i + 1..];
      ghost var before := otherUserIds;
      var s := rows[i].senderId;
      var r := rows[i].receiverId;
      if s == Some(owner) && Truthy(r) && r.value !in otherUserIds {
        otherUserIds := otherUserIds + [r.value];
      }
      ghost var afterReceiver := otherUserIds;
      assert afterReceiver == if s == Some(owner) && Truthy(r) then SetAdd(before, r.value) else before;
      if r == Some(owner) && Truthy(s) && s.value !in otherUserIds {
        otherUserIds := otherUserIds + [s.value];
      }
      assert otherUserIds == if r == Some(owner) && Truthy(s) then SetAdd(afterReceiver, s.value) else afterReceiver;
      assert otherUserIds == AddRowPartners(before, rows[i], owner);
      i := i + 1;
    }
    assert rows[i..] == [];
  }

  // ----- the database -----

  class Db {
    var users: seq<User>
    var chats: seq<Chat>
    var messages: seq<MessageRow>
    var nextUserId: int
    var nextChatId: int
    var nextMessageId: int

    ghost predicate Valid()
      reads this
    {
      TableOk(users, UserKey, nextUserId) && UniqueUsernames(users) &&
      TableOk(chats, ChatKey, nextChatId) &&
      TableOk(messages, MessageKey, nextMessageId)
    }

    /** Empty tables, as after the setup statements. */
    constructor ()
      ensures Valid() && users == [] && chats == [] && messages == []
      ensures nextUserId == 1 && nextChatId == 1 && nextMessageId == 1
    {
      users, chats, messages := [], [], [];
      nextUserId, nextChatId, nextMessageId := 1, 1, 1;
    }

    /**
     * `registerUser`: inserts the user and returns the row read back by
     * username, or null when the username is taken (the UNIQUE constraint
     * makes the insert throw).
     */
    method RegisterUser(username: string, name: string, password: string) returns (r: Option<User>)
      requires Valid()
      modifies this
      ensures Valid()
      ensures r.Some? <==> forall u :: u in old(users) ==> u.username != username
      ensures r.Some? ==> (r.value == User(old(nextUserId), username, name, password) &&
        users == old(users) + [r.value] && nextUserId == old(nextUserId) + 1)
      ensures r.None? ==> users == old(users) && nextUserId == old(nextUserId)
      ensures chats == old(chats) && messages == old(messages)
      ensures nextChatId == old(nextChatId) && nextMessageId == old(nextMessageId)
    {
      if exists u :: u in users && u.username == username {
        return None;
      }
      var row := User(nextUserId, username, name, password);
      AppendKeepsTable(users, row, UserKey, nextUserId);
      users := users + [row];
      nextUserId := nextUserId + 1;
      var found := Filter(users, (u: User) => u.username == username);
      assert row in found;
      r := Some(found[0]);
      assert found[0] in users;
    }

    /** `addChat(name, lastMessage, time, avatar, userId)`. */
    method AddChat(name: string, lastMessage: string, time: string, avatar: string, userId: int)
      requires Valid()
      modifies this
      ensures Valid()
      ensures chats == old(chats) + [Chat(old(nextChatId), userId, name, lastMessage, time, avatar)]
      ensures nextChatId == old(nextChatId) + 1
      ensures users == old(users) && messages == old(messages)
      ensures nextUserId == old(nextUserId) && nextMessageId == old(nextMessageId)
    {
      var row := Chat(nextChatId, userId, name, lastMessage, time, avatar);
      AppendKeepsTable(chats, row, ChatKey, nextChatId);
      chats := chats + [row];
      nextChatId := nextChatId + 1;
    }

    /** `addMessage(...)`. */
    method AddMessage(a: NewMessage)
      requires Valid()
      modifies this
      ensures Valid()
      ensures messages == old(messages) + [StoredMessage(old(nextMessageId), a)]
      ensures nextMessageId == old(nextMessageId) + 1
      ensures users == old(users) && chats == old(chats)
      ensures nextUserId == old(nextUserId) && nextChatId == old(nextChatId)
    {
      var row := StoredMessage(nextMessageId, a);
      AppendKeepsTable(messages, row, MessageKey, nextMessageId);
      messages := messages + [row];
      nextMessageId := nextMessageId + 1;
    }

    /** `deleteMessage(messageId)`: only that message goes. */
    method DeleteMessage(messageId: int)
      requires Valid()
      modifies this
      ensures Valid()
      ensures messages == WithoutMessage(old(messages), messageId)
      ensures users == old(users) && chats == old(chats)
      ensures nextUserId == old(nextUserId) && nextChatId == old(nextChatId) && nextMessageId == old(nextMessageId)
    {
      FilterKeepsTable(messages, (m: MessageRow) => m.id != messageId, MessageKey, nextMessageId);
      messages := WithoutMessage(messages, messageId);
    }

    /** `deleteChat(chatId)`: the chat and every message of it go. */
    method DeleteChat(chatId: int)
      requires Valid()
      modifies this
      ensures Valid()
      ensures chats == WithoutChat(old(chats), chatId)
      ensures messages == WithoutChatMessages(old(messages), chatId)
      ensures users == old(users)
      ensures nextUserId == old(nextUserId) && nextChatId == old(nextChatId) && nextMessageId == old(nextMessageId)
    {
      FilterKeepsTable(chats, (c: Chat) => c.id != chatId, ChatKey, nextChatId);
      chats := WithoutChat(chats, chatId);
      FilterKeepsTable(messages, (m: MessageRow) => m.chatId != chatId, MessageKey, nextMessageId);
      messages := WithoutChatMessages(messages, chatId);
    }

    /** `ensureChatForIncomingMessage(receiverNumeric, receiverString, senderString)`. */
    method EnsureChatForIncomingMessage(receiverNumeric: int, receiverString: string, senderString: string)
      requires Valid()
      modifies this
      ensures Valid()
      ensures chats == EnsureChat(old(chats), old(nextChatId), receiverNumeric, ChatNameFor(users, senderString))
      ensures nextChatId == old(nextChatId) + |chats| - |old(chats)|
      ensures users == old(users) && messages == old(messages)
      ensures nextUserId == old(nextUserId) && nextMessageId == old(nextMessageId)
    {
      if !StartsWith(senderString, "user_") {
        return;
      }
      var numericPart := UserNumber(senderString[5..]);
      if numericPart.None? {
        return;
      }
      var sender := FindUserById(users, numericPart.value);
      var senderName := if sender.Some? && sender.value.name != "" then sender.value.name else senderString;
      var existing := Filter(chats, (c: Chat) => c.userId == receiverNumeric && c.name == senderName);
      if existing == [] {
        AddChat(senderName, "Son Mesaj Yok", "", "", receiverNumeric);
      } else {
        assert existing[0] in existing;
      }
    }

    /** `ensureChatsForUser(ownerNumeric, ownerString)`: a chat for every partner the owner has messages with. */
    method EnsureChatsForUser(ownerNumeric: int, ownerString: string)
      requires Valid()
      modifies this
      ensures Valid()
      ensures chats == EnsureAll(old(chats), old(nextChatId), ownerNumeric, ChatNames(users, Partners(messages, ownerString)))
      ensures nextChatId == old(nextChatId) + |chats| - |old(chats)|
      ensures users == old(users) && messages == old(messages)
      ensures nextUserId == old(nextUserId) && nextMessageId == old(nextMessageId)
    {
      var otherUserIds := OtherUserIds(messages, ownerString);
      ghost var chats0, next0 := chats, nextChatId;
      ghost var names := ChatNames(users, otherUserIds);
      var j := 0;
      while j < |otherUserIds|
        invariant 0 <= j <= |otherUserIds|
        invariant Valid()
        invariant EnsureAll(chats, nextChatId, ownerNumeric, names[j..]) == EnsureAll(chats0, next0, ownerNumeric, names)
        invariant nextChatId == next0 + |chats| - |chats0|
        invariant users == old(users) && messages == old(messages)
        invariant nextUserId == old(nextUserId) && nextMessageId == old(nextMessageId)
      {
        ghost var chatsBefore, nextBefore := chats, nextChatId;
        EnsureChatForIncomingMessage(ownerNumeric, ownerString, otherUserIds[j]);
        EnsureAllStep(chats, nextChatId, chatsBefore, nextBefore, ownerNumeric, names, j);
        j := j + 1;
      }
      assert names[j..] == [];
    }
  }
}
