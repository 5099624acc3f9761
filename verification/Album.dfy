/** WhatsApp albums (pkg/msgconv/wa-album.go, pkg/msgconv/wa-album-send.go): an announcement with a
    count, items that point back at it, and a receiver that numbers them by arrival. */
module Album {
  import opened Prelude

  datatype MessageKey = MessageKey(remoteJID: string, fromMe: bool, id: string)

  /** `reply` and `timer` stand for the fields an announcement takes over, `extra` for the others. */
  datatype ContextInfo = ContextInfo(reply: string, timer: int, extra: string)

  datatype Association = Association(mediaAlbum: bool, parent: Option<MessageKey>, index: int)

  datatype MessageContext = MessageContext(association: Option<Association>, other: string)

  datatype Image = Image(context: Option<ContextInfo>)
  datatype Video = Video(gif: bool, context: Option<ContextInfo>)
  datatype Announcement = Announcement(images: Option<nat>, videos: Option<nat>, context: Option<ContextInfo>)

  /** The parts of a message albums look at. Wrappers hold a message in turn. */
  datatype Message = Message(
    image: Option<Image>, video: Option<Video>, album: Option<Announcement>, context: Option<MessageContext>,
    deviceSent: Option<Message>, ephemeral: Option<Message>, viewOnce: Option<Message>, viewOnceV2: Option<Message>,
    child: Option<Message>)

  const BLANK := Message(None, None, None, None, None, None, None, None, None)

  function Uint32(n: nat): nat { n % 0x1_0000_0000 }

  function Int32(n: int): int { (n + 0x8000_0000) % 0x1_0000_0000 - 0x8000_0000 }

  // ----- Sending -----

  datatype Kind = IsImage | IsVideo | NotAlbum

  function MediaKind(m: Option<Message>): Kind {
    if m.None? then NotAlbum
    else if m.value.image.Some? then IsImage
    else if m.value.video.Some? && !m.value.video.value.gif then IsVideo
    else NotAlbum
  }

  /** Images, and videos that are not GIFs, can be in an album; a message with an image counts as one. */
  lemma {:induction false} MediaKindReads(m: Message)
    ensures MediaKind(None) == NotAlbum
    ensures MediaKind(Some(m)) == IsImage <==> m.image.Some?
    ensures MediaKind(Some(m)) == IsVideo <==> m.image.None? && m.video.Some? && !m.video.value.gif
    ensures m.image.None? && m.video.Some? && m.video.value.gif ==> MediaKind(Some(m)) == NotAlbum
  {
  }

  predicate IsAlbumMedia(m: Option<Message>) { MediaKind(m) != NotAlbum }

  function CountKind(items: seq<Option<Message>>, k: Kind): nat {
    if items == [] then 0 else CountKind(items[..|items| - 1], k) + if MediaKind(items[|items| - 1]) == k then 1 else 0
  }

  function CountMedia(items: seq<Option<Message>>): nat { CountKind(items, IsImage) + CountKind(items, IsVideo) }

  function ItemContext(m: Message): Option<ContextInfo> {
    if m.image.Some? then m.image.value.context else if m.video.Some? then m.video.value.context else None
  }

  function FirstMedia(items: seq<Option<Message>>): Option<Message> {
    if items == [] then None else if IsAlbumMedia(items[0]) then items[0] else FirstMedia(items[1..])
  }

  function Inherited(m: Option<Message>): Option<ContextInfo> {
    if m.Some? && ItemContext(m.value).Some? then Some(ItemContext(m.value).value.(extra := "")) else None
  }

  /** The announcement takes over the reply and the timer of the first item that can be in the album, and
      nothing else. */
  lemma {:induction false} InheritedReads(items: seq<Option<Message>>, i: nat)
    requires i < |items| && MediaKind(items[i]) != NotAlbum
    requires forall j :: 0 <= j < i ==> MediaKind(items[j]) == NotAlbum
    ensures var m := items[i].value; var c := if m.image.Some? then m.image.value.context else m.video.value.context;
      Inherited(FirstMedia(items))
        == if c.None? then None else Some(ContextInfo(c.value.reply, c.value.timer, ""))
  {
    FirstMediaAt(items, i);
  }

  lemma {:induction false} FirstMediaAt(items: seq<Option<Message>>, i: nat)
    requires i < |items| && MediaKind(items[i]) != NotAlbum
    requires forall j :: 0 <= j < i ==> MediaKind(items[j]) == NotAlbum
    ensures FirstMedia(items) == items[i]
  {
    if i > 0 { FirstMediaAt(items[1..], i - 1); }
  }

  lemma {:induction false} FirstMediaSnoc(items: seq<Option<Message>>, m: Option<Message>)
    ensures FirstMedia(items + [m])
         == if FirstMedia(items).Some? then FirstMedia(items) else if IsAlbumMedia(m) then m else None
    ensures FirstMedia(items).Some? <==> CountMedia(items) > 0
    ensures CountKind(items + [m], IsImage) == CountKind(items, IsImage) + (if MediaKind(m) == IsImage then 1 else 0)
    ensures CountKind(items + [m], IsVideo) == CountKind(items, IsVideo) + (if MediaKind(m) == IsVideo then 1 else 0)
  {
    assert (items + [m])[..|items|] == items;
    if items == [] {
      assert items + [m] == [m] && [m][1..] == [];
    } else {
      FirstMediaSnoc(items[1..], m);
      assert (items + [m])[1..] == items[1..] + [m];
      var front := items[..|items| - 1];
      FirstMediaSnoc(front, items[|items| - 1]);
      assert items == front + [items[|items| - 1]];
    }
  }

  lemma {:induction false} NoMedia()
    ensures CountKind([], IsImage) == 0 && CountKind([], IsVideo) == 0 && FirstMedia([]).None?
  {
  }

  /** The announcement: how many images and videos follow, with the first item's reply and timer;
      nothing for fewer than two items. */
  method NewAlbumParent(items: seq<Option<Message>>) returns (parent: Option<Message>)
    requires |items| < 0x1_0000_0000  // the counters have 32 bits
    ensures parent.None? <==> CountMedia(items) < 2
    ensures parent.Some? ==> parent.value == BLANK.(album := parent.value.album) && parent.value.album.Some?
    ensures parent.Some? ==> var a := parent.value.album.value;
      && a.images == (if CountKind(items, IsImage) > 0 then Some(CountKind(items, IsImage)) else None)
      && a.videos == (if CountKind(items, IsVideo) > 0 then Some(CountKind(items, IsVideo)) else None)
      && a.context == Inherited(FirstMedia(items))
  {
    hide CountKind, FirstMedia;
    NoMedia();
    var images, videos: nat := 0, 0;
    var contextInfo: Option<ContextInfo> := None;
    for i := 0 to |items|
      invariant images == CountKind(items[..i], IsImage) && videos == CountKind(items[..i], IsVideo)
      invariant images + videos <= i
      invariant contextInfo == Inherited(FirstMedia(items[..i]))
    {
      FirstMediaSnoc(items[..i], items[i]);
      assert items[..i + 1] == items[..i] + [items[i]];
      var kind := MediaKind(items[i]);
      if kind == NotAlbum { continue; }
      if Uint32(images + videos) == 0 {
        var first := ItemContext(items[i].value);
        if first.Some? {
          contextInfo := Some(ContextInfo(first.value.reply, first.value.timer, ""));
        }
      }
      if kind == IsImage {
        images := Uint32(images + 1);
      } else {
        videos := Uint32(videos + 1);
      }
    }
    assert items[..|items|] == items;
    if Uint32(images + videos) < 2 {
      return None;
    }
    var album := Announcement(
      if images > 0 then Some(images) else None, if videos > 0 then Some(videos) else None, contextInfo);
    return Some(BLANK.(album := Some(album)));
  }

  function WithParent(m: Message, parent: MessageKey, index: int): Message {
    m.(context := Some(MessageContext(Some(Association(true, Some(parent), Int32(index))),
                                      if m.context.Some? then m.context.value.other else "")))
  }

  /** Every item that can be in an album becomes a child, numbered in order from `from`. */
  function Linked(items: seq<Option<Message>>, parent: MessageKey): seq<Option<Message>>
  {
    if items == [] then []
    else
      var front := items[..|items| - 1];
      var last := items[|items| - 1];
      Linked(front, parent)
      + [if IsAlbumMedia(last) then Some(WithParent(last.value, parent, CountMedia(front))) else last]
  }

  /** Linking sets the association and leaves the rest of the message alone. */
  lemma {:induction false} LinkReads(m: Message, parent: MessageKey, index: int)
    ensures var w := WithParent(m, parent, index);
      && w.context.Some? && w.(context := m.context) == m
      && (m.context.Some? ==> w.context.value.(association := m.context.value.association) == m.context.value)
      && w.context.value.association.Some?
      && var a := w.context.value.association.value;
      a.mediaAlbum && a.parent == Some(parent) && (-0x8000_0000 <= index < 0x8000_0000 ==> a.index == index)
  {
  }

  method LinkAlbumItems(items: array<Option<Message>>, parent: MessageKey) returns (linked: nat)
    modifies items
    ensures items[..] == Linked(old(items[..]), parent)
    ensures linked == CountMedia(old(items[..]))
  {
    linked := 0;
    ghost var was := items[..];
    for i := 0 to items.Length
      invariant items[..i] == Linked(was[..i], parent)
      invariant forall j :: i <= j < items.Length ==> items[j] == was[j]
      invariant linked == CountMedia(was[..i])
    {
      ghost var done := items[..i];
      assert was[..i + 1][..i] == was[..i];
      if IsAlbumMedia(items[i]) {
        items[i] := Some(WithParent(items[i].value, parent, linked));
        linked := linked + 1;
      }
      assert items[..i] == done;
      assert items[..i + 1] == done + [items[i]];
    }
    assert was[..items.Length] == was && items[..items.Length] == items[..];
  }

  // ----- Receiving -----

  /** Strips up to `n` wrappers. */
  function Unwrap(m: Message, n: nat): Message {
    if n == 0 then m
    else if m.deviceSent.Some? then Unwrap(m.deviceSent.value, n - 1)
    else if m.ephemeral.Some? then Unwrap(m.ephemeral.value, n - 1)
    else if m.viewOnce.Some? then Unwrap(m.viewOnce.value, n - 1)
    else if m.viewOnceV2.Some? then Unwrap(m.viewOnceV2.value, n - 1)
    else m
  }

  method UnwrapForAlbum(msg: Message) returns (r: Message)
    ensures r == Unwrap(msg, 5)
  {
    r := msg;
    for i := 0 to 5
      invariant Unwrap(r, 5 - i) == Unwrap(msg, 5)
    {
      if r.deviceSent.Some? {
        r := r.deviceSent.value;
      } else if r.ephemeral.Some? {
        r := r.ephemeral.value;
      } else if r.viewOnce.Some? {
        r := r.viewOnce.value;
      } else if r.viewOnceV2.Some? {
        r := r.viewOnceV2.value;
      } else {
        return;
      }
    }
  }

  datatype Wrapper = DeviceSent | Ephemeral | ViewOnce | ViewOnceV2

  function Wrapped(w: Wrapper, m: Message): Message {
    match w
    case DeviceSent => BLANK.(deviceSent := Some(m))
    case Ephemeral => BLANK.(ephemeral := Some(m))
    case ViewOnce => BLANK.(viewOnce := Some(m))
    case ViewOnceV2 => BLANK.(viewOnceV2 := Some(m))
  }

  /** A message in its wrappers, outermost first. */
  function WrappedIn(ws: seq<Wrapper>, m: Message): Message {
    if ws == [] then m else Wrapped(ws[0], WrappedIn(ws[1..], m))
  }

  /** Up to five wrappers of any kind come off, and no more. */
  lemma {:induction false} UnwrapUndoesWrapping(ws: seq<Wrapper>, m: Message, n: nat)
    requires Bare(m)
    ensures Unwrap(WrappedIn(ws, m), n) == WrappedIn(if |ws| <= n then [] else ws[n..], m)
    decreases n
  {
    if ws != [] && n > 0 {
      UnwrapUndoesWrapping(ws[1..], m, n - 1);
      if |ws| > n { assert ws[1..][n - 1..] == ws[n..]; }
    }
  }

  /** Of several wrappers side by side, the one that says the message was sent from another device comes
      first, then the disappearing one, then the view-once ones. */
  lemma {:induction false} WrapperPrecedence(m: Message, n: nat)
    requires n > 0
    ensures m.deviceSent.Some? ==> Unwrap(m, n) == Unwrap(m.deviceSent.value, n - 1)
    ensures m.deviceSent.None? && m.ephemeral.Some? ==> Unwrap(m, n) == Unwrap(m.ephemeral.value, n - 1)
    ensures m.deviceSent.None? && m.ephemeral.None? && m.viewOnce.Some? ==>
      Unwrap(m, n) == Unwrap(m.viewOnce.value, n - 1)
    ensures Bare(m) ==> Unwrap(m, n) == m
  {
  }

  function OwnParent(m: Option<Message>): Option<MessageKey> {
    if m.Some? && m.value.context.Some? && m.value.context.value.association.Some? then
      var a := m.value.context.value.association.value;
      if a.mediaAlbum && a.parent.Some? && a.parent.value.id != "" then a.parent else None
    else None
  }

  /** The first parent among the messages and the messages they are associated with. */
  function AlbumParent(msgs: seq<Option<Message>>): Option<MessageKey> {
    if msgs == [] then None
    else if OwnParent(msgs[0]).Some? then OwnParent(msgs[0])
    else if msgs[0].Some? && OwnParent(msgs[0].value.child).Some? then OwnParent(msgs[0].value.child)
    else AlbumParent(msgs[1..])
  }

  /** The order in which two messages and those they come with are asked. */
  lemma {:induction false} Candidates(a: Option<Message>, b: Option<Message>)
    ensures AlbumParent([a, b]) ==
      if OwnParent(a).Some? then OwnParent(a)
      else if a.Some? && OwnParent(a.value.child).Some? then OwnParent(a.value.child)
      else if OwnParent(b).Some? then OwnParent(b)
      else if b.Some? then OwnParent(b.value.child)
      else None
  {
    hide OwnParent;
    var none: seq<Option<Message>> := [b][1..];
    assert [a, b][1..] == [b] && none == [];
    assert AlbumParent(none) == None;
    assert AlbumParent([b]) == if OwnParent(b).Some? then OwnParent(b)
                               else if b.Some? && OwnParent(b.value.child).Some? then OwnParent(b.value.child)
                               else AlbumParent(none);
  }

  /** The counts of an announcement are added up, an unset one as zero. */
  lemma {:induction false} CountReads(a: Announcement)
    ensures var images := if a.images == None then 0 else a.images.value;
      var videos := if a.videos == None then 0 else a.videos.value;
      var n := images + videos; n < 0x1_0000_0000 ==> ExpectedCount(a) == n
  {
  }

  function ExpectedCount(a: Announcement): nat {
    Uint32((if a.images.Some? then a.images.value else 0) + (if a.videos.Some? then a.videos.value else 0))
  }

  datatype Info = Info(id: string, msg: Option<Message>)

  datatype Role = Announces(count: nat) | ChildOf(parent: string) | Neither

  function RoleOf(info: Info): Role {
    if info.msg.Some? && Unwrap(info.msg.value, 5).album.Some? then
      Announces(ExpectedCount(Unwrap(info.msg.value, 5).album.value))
    else
      var inner := if info.msg.Some? then Some(Unwrap(info.msg.value, 5)) else None;
      var parent := AlbumParent([inner, info.msg]);
      if parent.Some? then ChildOf(parent.value.id) else Neither
  }

  /** An item of an album: associated with its parent as album media, under an ID. */
  predicate PointsAt(m: Option<Message>, p: string) {
    && m.Some? && m.value.context.Some? && m.value.context.value.association.Some?
    && var a := m.value.context.value.association.value;
    a.mediaAlbum && a.parent.Some? && a.parent.value.id == p && p != ""
  }

  /** The message itself or the one it comes with. */
  predicate EitherPointsAt(m: Message, p: string) { PointsAt(Some(m), p) || PointsAt(m.child, p) }

  /** What a message is to an album: an announcement if it carries one, otherwise an item if it, or the
      message it comes with, points at a parent. */
  lemma {:induction false} RoleIff(id: string, m: Message)
    requires Bare(m)
    ensures RoleOf(Info(id, Some(m))).Announces? <==> m.album.Some?
    ensures m.album.Some? ==> RoleOf(Info(id, Some(m))) == Announces(ExpectedCount(m.album.value))
    ensures m.album.None? ==>
      (RoleOf(Info(id, Some(m))) == Neither <==> forall p :: !PointsAt(Some(m), p) && !PointsAt(m.child, p))
    ensures forall p :: m.album.None? && RoleOf(Info(id, Some(m))) == ChildOf(p) ==> EitherPointsAt(m, p)
    ensures forall p :: m.album.None? && PointsAt(Some(m), p) ==> RoleOf(Info(id, Some(m))) == ChildOf(p)
    ensures RoleOf(Info(id, None)) == Neither
  {
    assert Unwrap(m, 5) == m;
    Candidates(Some(m), Some(m));
    Candidates(None, None);
    var own, child := OwnParent(Some(m)), OwnParent(m.child);
    assert own.Some? ==> PointsAt(Some(m), own.value.id);
    assert child.Some? ==> PointsAt(m.child, child.value.id);
  }

  /** Wrapping does not change what a message is to an album. */
  lemma {:induction false} WrappedRole(id: string, ws: seq<Wrapper>, m: Message)
    requires Bare(m) && |ws| <= 5
    ensures RoleOf(Info(id, Some(WrappedIn(ws, m)))) == RoleOf(Info(id, Some(m)))
  {
    UnwrapUndoesWrapping(ws, m, 5);
    assert Unwrap(m, 5) == m;
    if ws != [] {
      var w := WrappedIn(ws, m);
      assert w.context.None? && w.child.None?;
      Candidates(Some(m), Some(w));
      Candidates(Some(m), Some(m));
    }
  }

  /** `i` is where its message ID first occurs as an album item. */
  predicate FirstChild(infos: seq<Info>, i: nat)
    requires i < |infos|
  {
    RoleOf(infos[i]).ChildOf? && forall j :: 0 <= j < i && RoleOf(infos[j]).ChildOf? ==> infos[j].id != infos[i].id
  }

  /** How many items of parent `p` are among the first `n` messages. */
  function Siblings(infos: seq<Info>, n: nat, p: string): nat
    requires n <= |infos|
  {
    if n == 0 then 0
    else Siblings(infos, n - 1, p) + if FirstChild(infos, n - 1) && RoleOf(infos[n - 1]).parent == p then 1 else 0
  }

  datatype Batch = Batch(index: map<string, nat>, count: map<string, nat>)

  /** The indexes after the first `n` messages: items are numbered by how many siblings came before. */
  ghost predicate Indexes(infos: seq<Info>, n: nat, index: map<string, nat>)
    requires n <= |infos|
  {
    && (forall i :: 0 <= i < n && RoleOf(infos[i]).ChildOf? ==> infos[i].id in index)
    && (forall i :: 0 <= i < n && FirstChild(infos, i) ==>
          index[infos[i].id] == Siblings(infos, i, RoleOf(infos[i]).parent))
    && (forall c :: c in index ==> exists i :: 0 <= i < n && FirstChild(infos, i) && infos[i].id == c)
  }

  /** The counts after the first `n` messages: the last announcement under each ID. */
  ghost predicate Counts(infos: seq<Info>, n: nat, count: map<string, nat>)
    requires n <= |infos|
  {
    && (forall i :: 0 <= i < n && RoleOf(infos[i]).Announces? ==> infos[i].id in count)
    && (forall p :: p in count ==> exists i :: IsLastAnnouncement(infos, n, i, p) && count[p] == RoleOf(infos[i]).count)
  }

  ghost predicate IsLastAnnouncement(infos: seq<Info>, n: nat, i: int, p: string)
    requires n <= |infos|
  {
    && 0 <= i < n && infos[i].id == p && RoleOf(infos[i]).Announces?
    && forall j :: i < j < n && RoleOf(infos[j]).Announces? ==> infos[j].id != p
  }

  method NewAlbumBatch(chronological: seq<Info>) returns (batch: Batch)
    ensures Indexes(chronological, |chronological|, batch.index)
    ensures Counts(chronological, |chronological|, batch.count)
  {
    hide RoleOf, Indexes, Counts, Siblings, FirstChild;
    batch := Batch(map[], map[]);
    StartEmpty(chronological);
    var next: map<string, nat> := map[];
    for i := 0 to |chronological|
      invariant Indexes(chronological, i, batch.index) && Counts(chronological, i, batch.count)
      invariant forall p :: Siblings(chronological, i, p) == if p in next then next[p] else 0
    {
      var info := chronological[i];
      var role := ReadRole(info);
      CountStep(chronological, i, batch.count);
      IndexStep(chronological, i, batch.index);
      match role {
        case Announces(count) =>
          batch := batch.(count := batch.count[info.id := count]);
        case Neither =>
        case ChildOf(parent) =>
          if info.id !in batch.index {
            var position := if parent in next then next[parent] else 0;
            batch := batch.(index := batch.index[info.id := position]);
            next := next[parent := position + 1];
          }
      }
    }
  }

  lemma {:induction false} StartEmpty(infos: seq<Info>)
    ensures Indexes(infos, 0, map[]) && Counts(infos, 0, map[]) && forall p :: Siblings(infos, 0, p) == 0
  {
  }

  /** What the loop makes of one message. */
  method ReadRole(info: Info) returns (role: Role)
    ensures role == RoleOf(info)
  {
    var msg := info.msg;
    if info.msg.Some? {
      var unwrapped := UnwrapForAlbum(info.msg.value);
      if unwrapped.album.Some? {
        return Announces(ExpectedCount(unwrapped.album.value));
      }
      msg := Some(unwrapped);
    }
    var parent := AlbumParent([msg, info.msg]);
    if parent.None? { return Neither; }
    return ChildOf(parent.value.id);
  }

  lemma {:induction false} CountStep(infos: seq<Info>, n: nat, count: map<string, nat>)
    requires n < |infos| && Counts(infos, n, count)
    ensures Counts(infos, n + 1,
                   if RoleOf(infos[n]).Announces? then count[infos[n].id := RoleOf(infos[n]).count] else count)
  {
    hide RoleOf;
    var announces := RoleOf(infos[n]).Announces?;
    var next := if announces then count[infos[n].id := RoleOf(infos[n]).count] else count;
    forall p | p in next
      ensures exists i :: IsLastAnnouncement(infos, n + 1, i, p) && next[p] == RoleOf(infos[i]).count
    {
      if announces && p == infos[n].id {
        assert IsLastAnnouncement(infos, n + 1, n, p);
      } else {
        var i :| IsLastAnnouncement(infos, n, i, p) && count[p] == RoleOf(infos[i]).count;
        assert IsLastAnnouncement(infos, n + 1, i, p);
      }
    }
  }

  lemma {:induction false} IndexStep(infos: seq<Info>, n: nat, index: map<string, nat>)
    requires n < |infos| && Indexes(infos, n, index)
    ensures var isNew := RoleOf(infos[n]).ChildOf? && infos[n].id !in index;
      && Indexes(infos, n + 1,
                 if isNew then index[infos[n].id := Siblings(infos, n, RoleOf(infos[n]).parent)] else index)
      && forall p :: Siblings(infos, n + 1, p)
                  == Siblings(infos, n, p) + if isNew && p == RoleOf(infos[n]).parent then 1 else 0
  {
    hide RoleOf, Siblings, FirstChild, Indexes;
    NewIsFirst(infos, n, index);
    forall p { SiblingsNext(infos, n, p); }
    if RoleOf(infos[n]).ChildOf? && infos[n].id !in index {
      IndexAdd(infos, n, index);
    } else {
      IndexSkip(infos, n, index);
    }
  }

  lemma {:induction false} IndexAdd(infos: seq<Info>, n: nat, index: map<string, nat>)
    requires n < |infos| && Indexes(infos, n, index) && FirstChild(infos, n) && infos[n].id !in index
      && RoleOf(infos[n]).ChildOf?
    ensures Indexes(infos, n + 1, index[infos[n].id := Siblings(infos, n, RoleOf(infos[n]).parent)])
  {
    hide RoleOf, Siblings, FirstChild;
    forall i | 0 <= i < n && FirstChild(infos, i) ensures infos[i].id in index && infos[i].id != infos[n].id {
      FirstIsChild(infos, i);
    }
    var next := index[infos[n].id := Siblings(infos, n, RoleOf(infos[n]).parent)];
    forall c | c in next ensures exists i :: 0 <= i < n + 1 && FirstChild(infos, i) && infos[i].id == c {
      if c == infos[n].id {
        assert FirstChild(infos, n);
      } else {
        var i :| 0 <= i < n && FirstChild(infos, i) && infos[i].id == c;
      }
    }
  }

  lemma {:induction false} IndexSkip(infos: seq<Info>, n: nat, index: map<string, nat>)
    requires n < |infos| && Indexes(infos, n, index) && !FirstChild(infos, n)
      && (RoleOf(infos[n]).ChildOf? ==> infos[n].id in index)
    ensures Indexes(infos, n + 1, index)
  {
    hide RoleOf, Siblings, FirstChild;
    forall c | c in index ensures exists i :: 0 <= i < n + 1 && FirstChild(infos, i) && infos[i].id == c {
      var i :| 0 <= i < n && FirstChild(infos, i) && infos[i].id == c;
    }
  }

  lemma {:induction false} FirstIsChild(infos: seq<Info>, i: nat)
    requires i < |infos| && FirstChild(infos, i)
    ensures RoleOf(infos[i]).ChildOf?
  {
  }

  lemma {:induction false} NewIsFirst(infos: seq<Info>, n: nat, index: map<string, nat>)
    requires n < |infos| && Indexes(infos, n, index)
    ensures RoleOf(infos[n]).ChildOf? && infos[n].id !in index <==> FirstChild(infos, n)
  {
    hide RoleOf, Siblings;
    if RoleOf(infos[n]).ChildOf? && infos[n].id in index {
      var i :| 0 <= i < n && FirstChild(infos, i) && infos[i].id == infos[n].id;
    }
  }

  lemma {:induction false} SiblingsNext(infos: seq<Info>, n: nat, p: string)
    requires n < |infos|
    ensures Siblings(infos, n + 1, p)
         == Siblings(infos, n, p) + if FirstChild(infos, n) && RoleOf(infos[n]).parent == p then 1 else 0
  {
    hide RoleOf;
  }

  // ----- For any batch: the indexes of an album are 0 .. k - 1, in order of arrival -----

  lemma {:induction false} SiblingsGrow(infos: seq<Info>, m: nat, n: nat, p: string)
    requires m <= n <= |infos|
    ensures Siblings(infos, m, p) <= Siblings(infos, n, p)
  {
    if m < n { SiblingsGrow(infos, m, n - 1, p); }
  }

  lemma {:induction false} IndexesInOrder(infos: seq<Info>, i: nat, j: nat)
    requires i < j < |infos| && FirstChild(infos, i) && FirstChild(infos, j)
      && RoleOf(infos[i]).parent == RoleOf(infos[j]).parent
    ensures Siblings(infos, i, RoleOf(infos[i]).parent) < Siblings(infos, j, RoleOf(infos[j]).parent)
  {
    hide RoleOf, Siblings;
    SiblingsNext(infos, i, RoleOf(infos[i]).parent);
    SiblingsGrow(infos, i + 1, j, RoleOf(infos[i]).parent);
  }

  lemma {:induction false} EveryIndexTaken(infos: seq<Info>, n: nat, p: string, r: nat) returns (i: nat)
    requires n <= |infos| && r < Siblings(infos, n, p)
    ensures i < n && FirstChild(infos, i) && RoleOf(infos[i]).parent == p && Siblings(infos, i, p) == r
  {
    hide RoleOf;
    if r == Siblings(infos, n - 1, p) {
      i := n - 1;
    } else {
      i := EveryIndexTaken(infos, n - 1, p, r);
    }
  }

  // ----- Sender and receiver agree -----

  lemma {:induction false} LinkedAt(items: seq<Option<Message>>, parent: MessageKey, i: nat)
    requires i < |items|
    ensures |Linked(items, parent)| == |items|
    ensures Linked(items, parent)[i]
         == if IsAlbumMedia(items[i]) then Some(WithParent(items[i].value, parent, CountMedia(items[..i])))
           else items[i]
    decreases |items|
  {
    var front := items[..|items| - 1];
    if i < |front| {
      LinkedAt(front, parent, i);
      assert front[..i] == items[..i];
    } else if front != [] {
      LinkedAt(front, parent, 0);
    }
  }

  /** What is sent for the first `n` items; an item that failed to convert is not. */
  function SentItems(items: seq<Option<Message>>, ids: seq<string>, n: nat): seq<Info>
    requires n <= |items| == |ids|
  {
    if n == 0 then []
    else SentItems(items, ids, n - 1) + if items[n - 1].Some? then [Info(ids[n - 1], items[n - 1])] else []
  }

  predicate Bare(m: Message) { m.deviceSent.None? && m.ephemeral.None? && m.viewOnce.None? && m.viewOnceV2.None? }

  /** Items as the converter makes them: nothing points at an album yet, and album media is not
      wrapped. */
  ghost predicate Unlinked(items: seq<Option<Message>>) {
    forall i :: 0 <= i < |items| && items[i].Some? ==>
      && RoleOf(Info("", items[i])) == Neither
      && (IsAlbumMedia(items[i]) ==> Bare(items[i].value))
  }

  lemma {:induction false} LinkedRole(m: Message, parent: MessageKey, index: int, id: string)
    requires Bare(m) && RoleOf(Info("", Some(m))) == Neither && parent.id != ""
    ensures RoleOf(Info(id, Some(WithParent(m, parent, index)))) == ChildOf(parent.id)
  {
    var w := WithParent(m, parent, index);
    assert Unwrap(w, 5) == w;
  }

  lemma {:induction false} CountKindBound(items: seq<Option<Message>>)
    ensures CountMedia(items) <= |items|
  {
    if items != [] { CountKindBound(items[..|items| - 1]); }
  }

  /** The whole album as the receiver gets it. */
  function SentAlbum(parentID: string, announcement: Message, linked: seq<Option<Message>>, ids: seq<string>): seq<Info>
    requires |linked| == |ids|
  {
    [Info(parentID, Some(announcement))] + SentItems(linked, ids, |linked|)
  }

  lemma {:induction false} SentPrefix(items: seq<Option<Message>>, ids: seq<string>, m: nat, n: nat)
    requires m <= n <= |items| == |ids|
    ensures SentItems(items, ids, m) <= SentItems(items, ids, n)
  {
    if m < n { SentPrefix(items, ids, m, n - 1); }
  }

  lemma {:induction false} SentIds(items: seq<Option<Message>>, ids: seq<string>, n: nat)
    requires n <= |items| == |ids| && Distinct(ids)
    ensures forall x :: x in SentItems(items, ids, n) ==> exists k :: 0 <= k < n && x.id == ids[k]
    ensures forall i, j :: 0 <= i < j < |SentItems(items, ids, n)| ==>
              SentItems(items, ids, n)[i].id != SentItems(items, ids, n)[j].id
  {
    if n > 0 {
      SentIds(items, ids, n - 1);
      var s := SentItems(items, ids, n - 1);
      forall i | 0 <= i < |s| ensures s[i].id != ids[n - 1] { assert s[i] in s; }
    }
  }

  /** Position and role of item `i` in the album that was sent. */
  lemma {:induction false} SentAt(
      parentID: string, announcement: Message, items: seq<Option<Message>>, parent: MessageKey, ids: seq<string>,
      i: nat)
    requires |items| == |ids| && Unlinked(items) && parent.id == parentID != "" && i < |items| && items[i].Some?
    ensures |Linked(items, parent)| == |items|
    ensures var infos := SentAlbum(parentID, announcement, Linked(items, parent), ids);
      var pos := 1 + |SentItems(Linked(items, parent), ids, i)|;
      && pos < |infos| && infos[pos] == Info(ids[i], Linked(items, parent)[i])
      && RoleOf(infos[pos]) == if IsAlbumMedia(items[i]) then ChildOf(parentID) else Neither
  {
    hide RoleOf, WithParent, Bare;
    LinkedAt(items, parent, i);
    var linked := Linked(items, parent);
    SentPrefix(linked, ids, i + 1, |items|);
    assert SentItems(linked, ids, i + 1)[|SentItems(linked, ids, i)|] == Info(ids[i], linked[i]);
    if IsAlbumMedia(items[i]) {
      LinkedRole(items[i].value, parent, CountMedia(items[..i]), ids[i]);
    } else {
      RoleIgnoresId(items[i], ids[i]);
    }
  }

  lemma {:induction false} RoleIgnoresId(m: Option<Message>, id: string)
    ensures RoleOf(Info(id, m)) == RoleOf(Info("", m))
  {
  }

  /** Up to item `i` the receiver has seen as many items as the sender linked. */
  lemma {:induction false} SiblingsAreLinks(
      parentID: string, announcement: Message, items: seq<Option<Message>>, parent: MessageKey, ids: seq<string>,
      i: nat)
    requires |items| == |ids| && Unlinked(items) && parent.id == parentID != "" && i <= |items|
    requires Distinct([parentID] + ids) && announcement.album.Some? && Bare(announcement)
    ensures |Linked(items, parent)| == |items|
    ensures var infos := SentAlbum(parentID, announcement, Linked(items, parent), ids);
      var pos := 1 + |SentItems(Linked(items, parent), ids, i)|;
      pos <= |infos| && Siblings(infos, pos, parentID) == CountMedia(items[..i])
  {
    if items != [] { LinkedAt(items, parent, 0); }
    if i == 0 {
      AnnouncementFirst(parentID, announcement, Linked(items, parent), ids);
      assert items[..0] == [];
    } else {
      SiblingsAreLinks(parentID, announcement, items, parent, ids, i - 1);
      LinkStep(parentID, announcement, items, parent, ids, i - 1);
    }
  }

  lemma {:induction false} AnnouncementFirst(
      parentID: string, announcement: Message, linked: seq<Option<Message>>, ids: seq<string>)
    requires |linked| == |ids| && announcement.album.Some? && Bare(announcement)
    ensures Siblings(SentAlbum(parentID, announcement, linked, ids), 1, parentID) == 0
  {
    var infos := SentAlbum(parentID, announcement, linked, ids);
    AnnouncementRole(parentID, announcement);
    SiblingsNext(infos, 0, parentID);
  }

  lemma {:induction false} LinkStep(
      parentID: string, announcement: Message, items: seq<Option<Message>>, parent: MessageKey, ids: seq<string>,
      i: nat)
    requires |items| == |ids| && Unlinked(items) && parent.id == parentID != ""
      && i < |items| == |Linked(items, parent)|
    requires Distinct([parentID] + ids)
    requires var pos := 1 + |SentItems(Linked(items, parent), ids, i)|;
      pos <= |SentAlbum(parentID, announcement, Linked(items, parent), ids)|
      && Siblings(SentAlbum(parentID, announcement, Linked(items, parent), ids), pos, parentID)
        == CountMedia(items[..i])
    ensures var pos := 1 + |SentItems(Linked(items, parent), ids, i + 1)|;
      pos <= |SentAlbum(parentID, announcement, Linked(items, parent), ids)|
      && Siblings(SentAlbum(parentID, announcement, Linked(items, parent), ids), pos, parentID)
        == CountMedia(items[..i + 1])
  {
    hide RoleOf, Bare, Siblings, Linked, CountKind, WithParent, MediaKind, FirstChild, Unlinked;
    var linked := Linked(items, parent);
    SentPrefix(linked, ids, i + 1, |items|);
    CountSnoc(items, i);
    LinkedAt(items, parent, i);
    if items[i].Some? {
      SentAt(parentID, announcement, items, parent, ids, i);
      AlbumIdsDistinct(parentID, announcement, linked, ids);
      SiblingStep(SentAlbum(parentID, announcement, linked, ids), 1 + |SentItems(linked, ids, i)|, parentID);
    } else {
      NotMedia();
    }
  }

  lemma {:induction false} NotMedia()
    ensures !IsAlbumMedia(None)
  {
  }

  lemma {:induction false} CountSnoc(items: seq<Option<Message>>, i: nat)
    requires i < |items|
    ensures CountMedia(items[..i + 1]) == CountMedia(items[..i]) + if IsAlbumMedia(items[i]) then 1 else 0
  {
    assert items[..i + 1][..i] == items[..i];
  }

  lemma {:induction false} SiblingStep(infos: seq<Info>, pos: nat, p: string)
    requires pos < |infos| && forall i, j :: 0 <= i < j < |infos| ==> infos[i].id != infos[j].id
    ensures Siblings(infos, pos + 1, p) == Siblings(infos, pos, p) + if RoleOf(infos[pos]) == ChildOf(p) then 1 else 0
  {
    hide RoleOf;
  }

  lemma {:induction false} AlbumIdsDistinct(
      parentID: string, announcement: Message, linked: seq<Option<Message>>, ids: seq<string>)
    requires |linked| == |ids| && Distinct([parentID] + ids)
    ensures var infos := SentAlbum(parentID, announcement, linked, ids);
      forall i, j :: 0 <= i < j < |infos| ==> infos[i].id != infos[j].id
  {
    assert Distinct(ids) by {
      forall i, j | 0 <= i < j < |ids| ensures ids[i] != ids[j] {
        assert ([parentID] + ids)[i + 1] == ids[i] && ([parentID] + ids)[j + 1] == ids[j];
      }
    }
    SentIds(linked, ids, |linked|);
    var s := SentItems(linked, ids, |linked|);
    forall i | 0 <= i < |s| ensures s[i].id != parentID {
      assert s[i] in s;
      var k :| 0 <= k < |linked| && s[i].id == ids[k];
      assert ([parentID] + ids)[0] == parentID && ([parentID] + ids)[k + 1] == ids[k];
    }
  }

  lemma {:induction false} AnnouncementRole(id: string, announcement: Message)
    requires announcement.album.Some? && Bare(announcement)
    ensures RoleOf(Info(id, Some(announcement))) == Announces(ExpectedCount(announcement.album.value))
  {
  }

  lemma {:induction false} ReadCount(
      parentID: string, announcement: Message, linked: seq<Option<Message>>, ids: seq<string>, count: map<string, nat>)
    requires |linked| == |ids| && Distinct([parentID] + ids) && announcement.album.Some? && Bare(announcement)
    requires var infos := SentAlbum(parentID, announcement, linked, ids); Counts(infos, |infos|, count)
    ensures parentID in count && count[parentID] == ExpectedCount(announcement.album.value)
  {
    hide RoleOf;
    var infos := SentAlbum(parentID, announcement, linked, ids);
    AnnouncementRole(parentID, announcement);
    AlbumIdsDistinct(parentID, announcement, linked, ids);
    var k :| IsLastAnnouncement(infos, |infos|, k, parentID) && count[parentID] == RoleOf(infos[k]).count;
    assert infos[0].id == parentID;
    assert k == 0;
  }

  /** The index a sent item carries. */
  function LinkIndex(m: Option<Message>): Option<int> {
    if m.Some? && m.value.context.Some? && m.value.context.value.association.Some?
    then Some(m.value.context.value.association.value.index) else None
  }

  /** Item `i` as the receiver reads it. */
  lemma {:induction false} ReadIndex(
      items: seq<Option<Message>>, announcement: Message, parent: MessageKey, ids: seq<string>,
      index: map<string, nat>, i: nat)
    requires |items| == |ids| < 0x8000_0000 && Unlinked(items) && parent.id != "" && Distinct([parent.id] + ids)
    requires announcement.album.Some? && Bare(announcement) && |Linked(items, parent)| == |items|
    requires var infos := SentAlbum(parent.id, announcement, Linked(items, parent), ids); Indexes(infos, |infos|, index)
    requires i < |items| && IsAlbumMedia(items[i])
    ensures Linked(items, parent)[i] == Some(WithParent(items[i].value, parent, CountMedia(items[..i])))
    ensures ids[i] in index && index[ids[i]] == Int32(CountMedia(items[..i])) == CountMedia(items[..i])
  {
    hide RoleOf, Siblings, Linked, SentItems, WithParent, Bare;
    LinkedAt(items, parent, i);
    SentAt(parent.id, announcement, items, parent, ids, i);
    SiblingsAreLinks(parent.id, announcement, items, parent, ids, i);
    CountKindBound(items[..i]);
    var infos := SentAlbum(parent.id, announcement, Linked(items, parent), ids);
    var pos := 1 + |SentItems(Linked(items, parent), ids, i)|;
    AlbumIdsDistinct(parent.id, announcement, Linked(items, parent), ids);
    assert FirstChild(infos, pos);
  }

  /** What the sender announced and numbered is what the receiver reads: the announcement under its
      ID with the number of linked items, and every linked item with that parent and its own index. */
  lemma {:induction false} SenderReceiverAgree(
      items: seq<Option<Message>>, announcement: Message, parent: MessageKey, ids: seq<string>, batch: Batch)
    requires |items| == |ids| < 0x8000_0000 && Unlinked(items) && parent.id != "" && Distinct([parent.id] + ids)
    requires announcement.album.Some? && Bare(announcement)
    requires ExpectedCount(announcement.album.value) == CountMedia(items)  // what NewAlbumParent announces
    requires |Linked(items, parent)| == |items|
    requires var infos := SentAlbum(parent.id, announcement, Linked(items, parent), ids);
      Indexes(infos, |infos|, batch.index) && Counts(infos, |infos|, batch.count)
    ensures parent.id in batch.count && batch.count[parent.id] == CountMedia(items)
    ensures forall i :: 0 <= i < |items| && IsAlbumMedia(items[i]) ==>
      && AlbumParent([Linked(items, parent)[i]]) == Some(parent)
      && LinkIndex(Linked(items, parent)[i]) == Some(CountMedia(items[..i]))
      && ids[i] in batch.index && batch.index[ids[i]] == CountMedia(items[..i])
  {
    hide Indexes, Counts, RoleOf, SentAlbum, Linked, CountKind;
    ReadCount(parent.id, announcement, Linked(items, parent), ids, batch.count);
    forall i | 0 <= i < |items| && IsAlbumMedia(items[i])
      ensures AlbumParent([Linked(items, parent)[i]]) == Some(parent)
      ensures LinkIndex(Linked(items, parent)[i]) == Some(CountMedia(items[..i]))
      ensures ids[i] in batch.index && batch.index[ids[i]] == CountMedia(items[..i])
    {
      ReadIndex(items, announcement, parent, ids, batch.index, i);
    }
  }

  /** An announcement counts what it announces. */
  lemma {:induction false} AnnouncedCount(items: seq<Option<Message>>, a: Announcement)
    requires |items| < 0x1_0000_0000
    requires a.images == (if CountKind(items, IsImage) > 0 then Some(CountKind(items, IsImage)) else None)
    requires a.videos == (if CountKind(items, IsVideo) > 0 then Some(CountKind(items, IsVideo)) else None)
    ensures ExpectedCount(a) == CountMedia(items)
  {
    CountKindBound(items);
  }

  /** Sends an album and reads it back: nothing is announced for fewer than two items, and otherwise
      the receiver's batch holds the sender's count and indexes. */
  method SendAndRead(
      items: seq<Option<Message>>, key: MessageKey, ids: seq<string>) returns (announced: bool, batch: Batch)
    requires |items| == |ids| < 0x8000_0000 && Unlinked(items) && key.id != "" && Distinct([key.id] + ids)
    ensures announced <==> CountMedia(items) >= 2
    ensures announced ==> key.id in batch.count && batch.count[key.id] == CountMedia(items)
    ensures announced ==> forall i :: 0 <= i < |items| && IsAlbumMedia(items[i]) ==>
      ids[i] in batch.index && batch.index[ids[i]] == CountMedia(items[..i])
  {
    hide CountKind, SentAlbum, RoleOf, Unlinked;
    var parent := NewAlbumParent(items);
    if parent.None? { return false, Batch(map[], map[]); }
    var sent := new Option<Message>[|items|](i requires 0 <= i < |items| => items[i]);
    assert sent[..] == items;
    var linked := LinkAlbumItems(sent, key);
    batch := NewAlbumBatch(SentAlbum(key.id, parent.value, sent[..], ids));
    AnnouncedCount(items, parent.value.album.value);
    SenderReceiverAgree(items, parent.value, key, ids, batch);
    announced := true;
  }

  // ----- Numbering live messages -----

  datatype Tagged = Tagged(album: string, index: int)

  /** One past the highest index seen for the album. */
  method NextAlbumIndex(id: string, recent: seq<Option<Tagged>>) returns (next: nat)
    ensures forall x :: x in recent && x.Some? && x.value.album == id ==> x.value.index < next
    ensures next > 0 ==> Some(Tagged(id, next - 1)) in recent
  {
    next := 0;
    for i := 0 to |recent|
      invariant forall j :: 0 <= j < i && recent[j].Some? && recent[j].value.album == id ==>
                  recent[j].value.index < next
      invariant next > 0 ==> Some(Tagged(id, next - 1)) in recent
    {
      if recent[i].Some? && recent[i].value.album == id && recent[i].value.index >= next {
        next := recent[i].value.index + 1;
        assert recent[i] == Some(Tagged(id, next - 1));
      }
    }
  }
}
