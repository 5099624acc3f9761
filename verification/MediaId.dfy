/** Compact media identifiers (pkg/waid/mediaid.go, pkg/waid/id.go): length-prefixed fields behind a
    type byte, and the parser that undoes them. Go strings are byte sequences here. */
module MediaId {
  import opened Prelude
  import opened Binary

  const TYPE_MESSAGE: byte := 255
  const TYPE_AVATAR: byte := 254
  const TYPE_COMMUNITY_AVATAR: byte := 253
  const TYPE_STICKER: byte := 252

  const JID_RAW: byte := 0
  const JID_USER_INT: byte := 1
  const JID_USER_DEVICE: byte := 2
  const JID_GROUP: byte := 3

  const ID_RAW: byte := 0
  const ID_UPPER_HEX: byte := 1

  datatype Server = DefaultUser | Group | Hidden | Other(name: Bytes)

  datatype JID = JID(user: Bytes, device: uint16, server: Server)

  const EMPTY := JID([], 0, Other([]))

  function NonAD(j: JID): JID { j.(device := 0) }

  /** JID.String and types.ParseJID, which belong to a library. */
  datatype Library = Library(toText: JID -> Bytes, fromText: Bytes -> Option<JID>)

  datatype Error = Panic | TooShort | BadLength | BadType | BadJID | EmptyField

  // ----- Numbers -----

  predicate IsDigit(b: byte) { 48 <= b <= 57 }

  function Value(ds: Bytes): nat {
    if ds == [] then 0 else 10 * Value(ds[..|ds| - 1]) + if IsDigit(ds[|ds| - 1]) then ds[|ds| - 1] - 48 else 0
  }

  /** strconv.ParseUint(s, 10, 64) */
  function ParseUint(s: Bytes): Option<nat> {
    if s != [] && (forall i :: 0 <= i < |s| ==> IsDigit(s[i])) && Value(s) < 0x1_0000_0000_0000_0000
    then Some(Value(s)) else None
  }

  /** strconv.FormatUint(n, 10) */
  function FormatUint(n: nat): (s: Bytes)
    ensures s != []
  {
    if n < 10 then [48 + n] else FormatUint(n / 10) + [48 + n % 10]
  }

  /** Digits without leading zeros. */
  predicate Canonical(s: Bytes) { |s| == 1 || (|s| > 1 && s[0] != 48) }

  lemma {:induction false} ValueOfFormat(n: nat)
    ensures Value(FormatUint(n)) == n
    ensures forall i :: 0 <= i < |FormatUint(n)| ==> IsDigit(FormatUint(n)[i])
    ensures Canonical(FormatUint(n)) && (n > 0 ==> FormatUint(n)[0] != 48)
  {
    if n < 10 {
      assert FormatUint(n)[..0] == [];
    } else {
      ValueOfFormat(n / 10);
      assert FormatUint(n)[..|FormatUint(n)| - 1] == FormatUint(n / 10);
    }
  }

  lemma {:induction false} FormatOfValue(s: Bytes)
    requires s != [] && forall i :: 0 <= i < |s| ==> IsDigit(s[i])
    ensures FormatUint(Value(s)) == s <==> Canonical(s)
    ensures |s| >= 1 && s[0] != 48 ==> Value(s) > 0
  {
    ValueOfFormat(Value(s));
    var front := s[..|s| - 1];
    if |s| == 1 {
      assert front == [];
      assert Value(front) == 0;
    } else {
      FormatOfValue(front);
      if Canonical(s) {
        assert front[0] == s[0];
        assert Value(s) / 10 == Value(front) && Value(s) % 10 == s[|s| - 1] - 48;
        assert s == front + [s[|s| - 1]];
      }
    }
  }

  // ----- Addresses -----

  /** The branch for a device address writes past the end of a one-byte slice. */
  function CompactJID(lib: Library, j: JID): Result<Bytes, Error> {
    if j.server == DefaultUser && ParseUint(j.user).Some? then
      if j.device == 0 then Ok([JID_USER_INT] + BigEndian(ParseUint(j.user).value, 8)) else Err(Panic)
    else if j.server == Group then Ok([JID_GROUP] + j.user)
    else Ok([JID_RAW] + lib.toText(j))
  }

  function ParseCompactJID(lib: Library, s: Bytes): Result<JID, Error> {
    if s == [] then Err(EmptyField)
    else if s[0] == JID_RAW then (match lib.fromText(s[1..]) case Some(j) => Ok(j) case None => Err(BadJID))
    else if s[0] == JID_USER_INT then
      if |s| != 9 then Err(BadLength) else Ok(JID(FormatUint(FromBigEndian(s[1..9])), 0, DefaultUser))
    else if s[0] == JID_USER_DEVICE then
      if |s| != 11 then Err(BadLength)
      else
        Bounds(s[9..11]);
        Powers();
        Ok(JID(FormatUint(FromBigEndian(s[1..9])), FromBigEndian(s[9..11]), DefaultUser))
    else if s[0] == JID_GROUP then Ok(JID(s[1..], 0, Group))
    else Err(BadType)
  }

  /** Addresses the compact form keeps: numeric users must not have leading zeros, and whatever is
      written out in full must survive the library. */
  predicate Keeps(lib: Library, j: JID) {
    if j.server == DefaultUser && ParseUint(j.user).Some? then Canonical(j.user)
    else j.server == Group || lib.fromText(lib.toText(j)) == Some(j)
  }

  /** Exact condition for an address without device to come back. */
  lemma {:induction false} JIDRoundTripIff(lib: Library, j: JID)
    requires j.device == 0
    ensures CompactJID(lib, j).Ok?
    ensures ParseCompactJID(lib, CompactJID(lib, j).value) == Ok(j) <==> Keeps(lib, j)
  {
    var s := CompactJID(lib, j).value;
    if j.server == DefaultUser && ParseUint(j.user).Some? {
      var n := ParseUint(j.user).value;
      assert s[1..9] == BigEndian(n, 8);
      Powers();
      RoundTrips(n, 8);
      FormatOfValue(j.user);
    } else if j.server == Group {
      assert s[1..] == j.user;
    } else {
      assert s[1..] == lib.toText(j);
    }
  }

  // ----- Message IDs -----

  predicate IsUpperHex(s: Bytes) {
    forall i :: 0 <= i < |s| ==> 48 <= s[i] <= 57 || 65 <= s[i] <= 70
  }

  function Nibble(b: byte): (n: nat)
    ensures n < 16
  {
    if 48 <= b <= 57 then b - 48 else if 65 <= b <= 70 then b - 55 else if 97 <= b <= 102 then b - 87 else 0
  }

  function HexDigit(n: nat): byte
    requires n < 16
  {
    if n < 10 then 48 + n else 55 + n
  }

  function HexDecode(s: Bytes): Bytes
    requires |s| % 2 == 0
  {
    if s == [] then [] else [16 * Nibble(s[0]) + Nibble(s[1])] + HexDecode(s[2..])
  }

  /** strings.ToUpper(hex.EncodeToString(s)) */
  function HexEncode(s: Bytes): Bytes {
    if s == [] then [] else [HexDigit(s[0] / 16), HexDigit(s[0] % 16)] + HexEncode(s[1..])
  }

  lemma {:induction false} HexRoundTrip(s: Bytes)
    requires IsUpperHex(s) && |s| % 2 == 0
    ensures HexEncode(HexDecode(s)) == s
    decreases |s|
  {
    if s != [] {
      HexRoundTrip(s[2..]);
      assert HexDecode(s)[1..] == HexDecode(s[2..]);
      assert s == [s[0], s[1]] + s[2..];
    }
  }

  function CompactMsgID(id: Bytes): Bytes {
    if IsUpperHex(id) && |id| % 2 == 0 then [ID_UPPER_HEX] + HexDecode(id) else [ID_RAW] + id
  }

  function ParseCompactMsgID(s: Bytes): Result<Bytes, Error> {
    if s == [] then Err(EmptyField)
    else if s[0] == ID_RAW then Ok(s[1..])
    else if s[0] == ID_UPPER_HEX then Ok(HexEncode(s[1..]))
    else Err(BadType)
  }

  /** Every message ID comes back, whichever form it takes. */
  lemma {:induction false} MsgIDRoundTrip(id: Bytes)
    ensures ParseCompactMsgID(CompactMsgID(id)) == Ok(id)
  {
    if IsUpperHex(id) && |id| % 2 == 0 {
      HexRoundTrip(id);
      assert CompactMsgID(id)[1..] == HexDecode(id);
    } else {
      assert CompactMsgID(id)[1..] == id;
    }
  }

  // ----- Fields -----

  /** A field: its length in one byte, which silently wraps, and its bytes. */
  function Field(s: Bytes): Bytes { [|s| % 0x100] + s }

  /** Takes one field off the front: (field, rest). */
  function ReadCompact(data: Bytes): (r: Result<(Bytes, Bytes), Error>)
    ensures r.Ok? ==> data == [|r.value.0|] + r.value.0 + r.value.1
    ensures r.Ok? <==> |data| > 0 && |data| > data[0]
    ensures r.Err? ==> r.error == TooShort
  {
    if |data| < 1 then Err(TooShort)
    else
      var length: int := data[0];
      if |data| < length + 1 then Err(TooShort) else Ok((data[1..length + 1], data[length + 1..]))
  }

  /** A field is read back exactly when its length fits the byte. */
  lemma {:induction false} FieldIff(s: Bytes, rest: Bytes)
    ensures ReadCompact(Field(s) + rest) == Ok((s, rest)) <==> |s| < 0x100
  {
    var data := Field(s) + rest;
    if |s| < 0x100 {
      assert data[1..|s| + 1] == s && data[|s| + 1..] == rest;
    }
  }

  lemma {:induction false} FieldStart(s: Bytes)
    ensures Field(s) != [] && Field(s)[0] == |s| % 0x100
  {
  }

  // ----- Logins and senders -----

  function LoginJID(login: Bytes): JID { if login == [] then EMPTY else JID(login, 0, DefaultUser) }

  function LoginOf(j: JID): Bytes { if j.server != DefaultUser then [] else j.user }

  /** The hidden address of the sender where the chat uses hidden addresses. */
  function PickSender(chat: JID, sender: JID, alt: JID): JID {
    if chat.server == Hidden && sender.server == DefaultUser && alt.server == Hidden then alt else sender
  }

  /** In a chat of hidden addresses a sender known by phone number goes by their hidden address if that
      is known; everyone else goes by the address the message came from. */
  lemma {:induction false} PickedSender(chat: JID, sender: JID, alt: JID)
    ensures PickSender(chat, sender, alt) in {sender, alt}
    ensures chat.server == Hidden && sender.server == DefaultUser && alt.server == Hidden ==>
      PickSender(chat, sender, alt) == alt
    ensures chat.server != Hidden || sender.server != DefaultUser || alt.server != Hidden ==>
      PickSender(chat, sender, alt) == sender
  {
  }

  /** A login is a phone number address without device, and only such an address is one. */
  lemma {:induction false} LoginReads(login: Bytes, j: JID)
    ensures LoginJID(login).device == 0 && LoginJID(login).user == login
    ensures login != [] ==> LoginJID(login).server == DefaultUser
    ensures j.server == DefaultUser ==> LoginOf(j) == j.user
    ensures j.server != DefaultUser ==> LoginOf(j) == []
    ensures NonAD(j).user == j.user && NonAD(j).server == j.server && NonAD(j).device == 0
  {
  }

  // ----- Encoders -----

  datatype MessageInfo = MessageInfo(chat: JID, sender: JID, senderAlt: JID, id: Bytes)

  function MessageFields(chat: Bytes, sender: Bytes, login: Bytes, id: Bytes, tail: Bytes): Bytes {
    Field(chat) + (Field(sender) + (Field(login) + (Field(id) + tail)))
  }

  function MakeMediaID(
      lib: Library, info: MessageInfo, idOverride: Bytes, receiver: Bytes, version: Bytes): Result<Bytes, Error>
  {
    var chat := CompactJID(lib, NonAD(info.chat));
    var sender := CompactJID(lib, NonAD(PickSender(info.chat, info.sender, info.senderAlt)));
    var login := CompactJID(lib, LoginJID(receiver));
    var id := CompactMsgID(if idOverride != [] then idOverride else info.id);
    if chat.Err? || sender.Err? || login.Err? then Err(Panic)
    else Ok([TYPE_MESSAGE] + MessageFields(chat.value, sender.value, login.value, id, Field(version)))
  }

  function MakeAvatarMediaID(
      lib: Library, target: JID, id: Bytes, receiver: Bytes, community: bool): Result<Bytes, Error>
  {
    var t := CompactJID(lib, NonAD(target));
    var login := CompactJID(lib, LoginJID(receiver));
    if t.Err? || login.Err? then Err(Panic)
    else Ok([if community then TYPE_COMMUNITY_AVATAR else TYPE_AVATAR]
      + (Field(t.value) + (Field(id) + Field(login.value))))
  }

  function MakeStickerPackMediaID(lib: Library, packID: Bytes, fileHash: Bytes, receiver: Bytes): Result<Bytes, Error> {
    var login := CompactJID(lib, LoginJID(receiver));
    if login.Err? then Err(Panic)
    else Ok([TYPE_STICKER] + (Field(packID) + (Field(fileHash) + Field(login.value))))
  }

  // ----- On the wire -----

  /** A field on the wire: one length byte, then the bytes. */
  function Prefixed(s: Bytes): Bytes
    requires |s| < 256
  {
    [|s|] + s
  }

  /** An address on the wire: 1 and eight bytes for a number at the phone number server, 3 and the user for
      a group, 0 and the printed address for anything else. */
  lemma {:induction false} JIDOnTheWire(lib: Library, j: JID)
    requires j.device == 0
    ensures CompactJID(lib, j).Ok?
    ensures var s := CompactJID(lib, j).value;
      && (j.server == DefaultUser && ParseUint(j.user).Some? ==> s == [1] + BigEndian(ParseUint(j.user).value, 8))
      && (j.server == Group ==> s == [3] + j.user)
      && (j.server != Group && (j.server != DefaultUser || ParseUint(j.user).None?) ==> s == [0] + lib.toText(j))
  {
  }

  /** A media ID on the wire: its type, then its fields in order. */
  lemma {:induction false} OnTheWire(
      lib: Library, info: MessageInfo, over: Bytes, receiver: Bytes, version: Bytes, target: JID, a: Bytes, b: Bytes)
    requires var sender := NonAD(PickSender(info.chat, info.sender, info.senderAlt));
      forall j :: j in {NonAD(info.chat), sender, LoginJID(receiver), NonAD(target)} ==>
        CompactJID(lib, j).Ok? && |CompactJID(lib, j).value| < 256
    requires |CompactMsgID(if over != [] then over else info.id)| < 256 && |version| < 256 && |a| < 256 && |b| < 256
    ensures var sender := NonAD(PickSender(info.chat, info.sender, info.senderAlt));
      var chat, from := CompactJID(lib, NonAD(info.chat)), CompactJID(lib, sender);
      var login := CompactJID(lib, LoginJID(receiver));
      var id := CompactMsgID(if over != [] then over else info.id);
      && chat.Ok? && from.Ok? && login.Ok? && |chat.value| < 256 && |from.value| < 256 && |login.value| < 256
      && MakeMediaID(lib, info, over, receiver, version) == Ok([255] + (Prefixed(chat.value) + (Prefixed(from.value)
           + (Prefixed(login.value) + (Prefixed(id) + Prefixed(version))))))
      && MakeStickerPackMediaID(lib, a, b, receiver)
         == Ok([252] + (Prefixed(a) + (Prefixed(b) + Prefixed(login.value))))
    ensures var t, login := CompactJID(lib, NonAD(target)), CompactJID(lib, LoginJID(receiver));
      && t.Ok? && login.Ok? && |t.value| < 256 && |login.value| < 256
      && MakeAvatarMediaID(lib, target, a, receiver, false)
         == Ok([254] + (Prefixed(t.value) + (Prefixed(a) + Prefixed(login.value))))
      && MakeAvatarMediaID(lib, target, a, receiver, true)
         == Ok([253] + (Prefixed(t.value) + (Prefixed(a) + Prefixed(login.value))))
  {
    hide CompactJID, CompactMsgID;
    var sender := NonAD(PickSender(info.chat, info.sender, info.senderAlt));
    var js := {NonAD(info.chat), sender, LoginJID(receiver), NonAD(target)};
    assert NonAD(info.chat) in js && sender in js && LoginJID(receiver) in js && NonAD(target) in js;
  }

  /** A message ID of upper-case hexadecimal digits, two to a byte, goes as 1 and those bytes, any other as
      0 and the ID itself. */
  lemma {:induction false} MsgIDOnTheWire(id: Bytes, i: nat)
    ensures (|id| % 2 == 0 && IsUpperHex(id)) ==> |CompactMsgID(id)| == 1 + |id| / 2 && CompactMsgID(id)[0] == 1
    ensures (|id| % 2 == 0 && IsUpperHex(id) && i < |id| / 2) ==>
      CompactMsgID(id)[1 + i] == 16 * HexValue(id[2 * i]) + HexValue(id[2 * i + 1])
    ensures !(|id| % 2 == 0 && IsUpperHex(id)) ==> CompactMsgID(id) == [0] + id
  {
    if |id| % 2 == 0 && IsUpperHex(id) { HexAt(id, i); }
  }

  /** The value of a hexadecimal digit, 0 to 9 or A to F. */
  function HexValue(b: byte): int { if b < 65 then b - 48 else b - 65 + 10 }

  lemma {:induction false} HexAt(id: Bytes, i: nat)
    requires |id| % 2 == 0 && IsUpperHex(id)
    ensures |HexDecode(id)| == |id| / 2
    ensures i < |id| / 2 ==> HexDecode(id)[i] == 16 * HexValue(id[2 * i]) + HexValue(id[2 * i + 1])
    decreases |id|
  {
    hide Nibble, HexValue;
    if id != [] {
      NibbleIs(id[0]);
      NibbleIs(id[1]);
      HexAt(id[2..], if i == 0 then 0 else i - 1);
      if 0 < i < |id| / 2 { assert id[2..][2 * (i - 1)] == id[2 * i] && id[2..][2 * (i - 1) + 1] == id[2 * i + 1]; }
    }
  }

  lemma {:induction false} NibbleIs(b: byte)
    requires 48 <= b <= 57 || 65 <= b <= 70
    ensures Nibble(b) == HexValue(b)
  {
  }

  // ----- The parser -----

  datatype Content =
    | Message(chat: JID, sender: JID, id: Bytes, version: Option<Bytes>)
    | Avatar(target: JID, avatarID: Bytes, community: bool)
    | Sticker(packID: Bytes, fileHash: Bytes)

  datatype Parsed = Parsed(content: Content, login: Bytes)

  function ReadJID(lib: Library, data: Bytes): Result<(JID, Bytes), Error> {
    match ReadCompact(data)
    case Err(e) => Err(e)
    case Ok((f, rest)) => (match ParseCompactJID(lib, f) case Err(e) => Err(e) case Ok(j) => Ok((j, rest)))
  }

  function ReadMsgID(data: Bytes): Result<(Bytes, Bytes), Error> {
    match ReadCompact(data)
    case Err(e) => Err(e)
    case Ok((f, rest)) => (match ParseCompactMsgID(f) case Err(e) => Err(e) case Ok(id) => Ok((id, rest)))
  }

  function ParseMessage(lib: Library, data: Bytes): Result<Parsed, Error> {
    var chat := ReadJID(lib, data);
    if chat.Err? then Err(chat.error) else
    var sender := ReadJID(lib, chat.value.1);
    if sender.Err? then Err(sender.error) else
    var receiver := ReadJID(lib, sender.value.1);
    if receiver.Err? then Err(receiver.error) else
    var id := ReadMsgID(receiver.value.1);
    if id.Err? then Err(id.error) else
    var login := LoginOf(receiver.value.0);
    if id.value.1 == [] then Ok(Parsed(Message(chat.value.0, sender.value.0, id.value.0, None), login)) else
    var version := ReadCompact(id.value.1);
    if version.Err? then Err(version.error)
    else Ok(Parsed(Message(chat.value.0, sender.value.0, id.value.0, Some(version.value.0)), login))
  }

  function ParseAvatar(lib: Library, data: Bytes, community: bool): Result<Parsed, Error> {
    var target := ReadJID(lib, data);
    if target.Err? then Err(target.error) else
    var id := ReadCompact(target.value.1);
    if id.Err? then Err(id.error) else
    var receiver := ReadJID(lib, id.value.1);
    if receiver.Err? then Err(receiver.error)
    else Ok(Parsed(Avatar(target.value.0, id.value.0, community), LoginOf(receiver.value.0)))
  }

  function ParseSticker(lib: Library, data: Bytes): Result<Parsed, Error> {
    var pack := ReadCompact(data);
    if pack.Err? then Err(pack.error) else
    var hash := ReadCompact(pack.value.1);
    if hash.Err? then Err(hash.error) else
    var receiver := ReadJID(lib, hash.value.1);
    if receiver.Err? then Err(receiver.error)
    else Ok(Parsed(Sticker(pack.value.0, hash.value.0), LoginOf(receiver.value.0)))
  }

  /** Old IDs have no type byte and start with a length below 128. An empty ID is not caught. */
  function ParseMediaID(lib: Library, mediaID: Bytes): Result<Parsed, Error> {
    if mediaID == [] then Err(Panic)
    else
      var typed := mediaID[0] > 127;
      var kind := if typed then mediaID[0] else TYPE_MESSAGE;
      var data := if typed then mediaID[1..] else mediaID;
      if kind == TYPE_MESSAGE then ParseMessage(lib, data)
      else if kind == TYPE_AVATAR || kind == TYPE_COMMUNITY_AVATAR then
        ParseAvatar(lib, data, kind == TYPE_COMMUNITY_AVATAR)
      else if kind == TYPE_STICKER then ParseSticker(lib, data)
      else Err(BadType)
  }

  /** The parser also reads an address with device, which no encoder writes: 2, the number, the device. */
  lemma {:induction false} DeviceRead(lib: Library, n: nat, device: uint16)
    requires n < 0x1_0000_0000_0000_0000
    ensures ParseCompactJID(lib, [2] + BigEndian(n, 8) + BigEndian(device, 2))
         == Ok(JID(FormatUint(n), device, DefaultUser))
  {
    var s := [2] + BigEndian(n, 8) + BigEndian(device, 2);
    assert s[1..9] == BigEndian(n, 8) && s[9..11] == BigEndian(device, 2);
    Powers();
    RoundTrips(n, 8);
    RoundTrips(device, 2);
  }

  /** What the parser refuses: addresses of unknown kind or wrong length, message IDs of unknown kind, and
      media IDs of unknown type. */
  lemma {:induction false} ParserRefuses(lib: Library, s: Bytes)
    ensures s == [] ==> ParseCompactJID(lib, s).Err? && ParseCompactMsgID(s).Err? && ParseMediaID(lib, s).Err?
    ensures s != [] && s[0] == 1 ==> (ParseCompactJID(lib, s).Ok? <==> |s| == 9)
    ensures s != [] && s[0] == 2 ==> (ParseCompactJID(lib, s).Ok? <==> |s| == 11)
    ensures s != [] && s[0] > 3 ==> ParseCompactJID(lib, s) == Err(BadType)
    ensures s != [] && s[0] > 1 ==> ParseCompactMsgID(s) == Err(BadType)
    ensures s != [] && 128 <= s[0] < 252 ==> ParseMediaID(lib, s) == Err(BadType)
  {
  }

  // ----- Round trips -----

  /** The encoders only ever compact addresses without device, so none of them reaches the branch
      that would fail. */
  lemma {:induction false} EncodersNeverPanic(
      lib: Library, info: MessageInfo, idOverride: Bytes, receiver: Bytes, version: Bytes, target: JID, community: bool)
    ensures MakeMediaID(lib, info, idOverride, receiver, version).Ok?
    ensures MakeAvatarMediaID(lib, target, idOverride, receiver, community).Ok?
    ensures MakeStickerPackMediaID(lib, idOverride, version, receiver).Ok?
  {
  }

  /** An address that fits its field and comes back from it. */
  predicate Fits(lib: Library, j: JID) {
    j.device == 0 && Keeps(lib, j) && CompactJID(lib, j).Ok? && |CompactJID(lib, j).value| < 0x100
  }

  lemma {:induction false} ReadJIDField(lib: Library, j: JID, rest: Bytes)
    requires Fits(lib, j)
    ensures ReadJID(lib, Field(CompactJID(lib, j).value) + rest) == Ok((j, rest))
  {
    hide CompactJID, ParseCompactJID, Keeps;
    JIDRoundTripIff(lib, j);
    FieldIff(CompactJID(lib, j).value, rest);
  }

  lemma {:induction false} LoginRoundTrip(login: Bytes)
    ensures LoginOf(LoginJID(login)) == login
  {
  }

  /** The body of a message ID with compact addresses and message ID, and whatever follows. */
  function BodyOf(lib: Library, chat: JID, sender: JID, receiver: Bytes, id: Bytes, tail: Bytes): Bytes
    requires Fits(lib, chat) && Fits(lib, sender) && Fits(lib, LoginJID(receiver))
  {
    MessageFields(CompactJID(lib, chat).value, CompactJID(lib, sender).value, CompactJID(lib, LoginJID(receiver)).value,
                  CompactMsgID(id), tail)
  }

  lemma {:induction false} MessageBody(lib: Library, chat: JID, sender: JID, receiver: Bytes, id: Bytes, tail: Bytes)
    requires Fits(lib, chat) && Fits(lib, sender) && Fits(lib, LoginJID(receiver)) && |CompactMsgID(id)| < 0x100
    ensures tail == [] ==>
      ParseMessage(lib, BodyOf(lib, chat, sender, receiver, id, tail))
        == Ok(Parsed(Message(chat, sender, id, None), receiver))
    ensures tail != [] && ReadCompact(tail).Ok? ==>
      ParseMessage(lib, BodyOf(lib, chat, sender, receiver, id, tail))
        == Ok(Parsed(Message(chat, sender, id, Some(ReadCompact(tail).value.0)), receiver))
  {
    hide CompactJID, ReadJID, CompactMsgID, Keeps, ReadMsgID, ReadCompact, Field;
    var ids := Field(CompactMsgID(id)) + tail;
    var logins := Field(CompactJID(lib, LoginJID(receiver)).value) + ids;
    ReadJIDField(lib, chat, Field(CompactJID(lib, sender).value) + logins);
    ReadJIDField(lib, sender, logins);
    ReadJIDField(lib, LoginJID(receiver), ids);
    ReadMsgIDField(id, tail);
    LoginRoundTrip(receiver);
  }

  lemma {:induction false} ReadMsgIDField(id: Bytes, rest: Bytes)
    requires |CompactMsgID(id)| < 0x100
    ensures ReadMsgID(Field(CompactMsgID(id)) + rest) == Ok((id, rest))
  {
    hide CompactMsgID, ParseCompactMsgID;
    MsgIDRoundTrip(id);
    FieldIff(CompactMsgID(id), rest);
  }

  /** A message's media ID parses to the chat, the picked sender, the overriding or own message ID,
      the receiver and the version. */
  lemma {:induction false} MessageRoundTrip(
      lib: Library, info: MessageInfo, idOverride: Bytes, receiver: Bytes, version: Bytes)
    requires var sender := PickSender(info.chat, info.sender, info.senderAlt);
      Fits(lib, NonAD(info.chat)) && Fits(lib, NonAD(sender)) && Fits(lib, LoginJID(receiver))
    requires |CompactMsgID(if idOverride != [] then idOverride else info.id)| < 0x100 && |version| < 0x100
    ensures MakeMediaID(lib, info, idOverride, receiver, version).Ok?
    ensures ParseMediaID(lib, MakeMediaID(lib, info, idOverride, receiver, version).value)
         == Ok(Parsed(Message(NonAD(info.chat), NonAD(PickSender(info.chat, info.sender, info.senderAlt)),
                              if idOverride != [] then idOverride else info.id, Some(version)), receiver))
  {
    hide CompactJID, CompactMsgID, Keeps, ParseMessage, MessageFields, ReadCompact, Field;
    var id := if idOverride != [] then idOverride else info.id;
    var sender := NonAD(PickSender(info.chat, info.sender, info.senderAlt));
    MessageBody(lib, NonAD(info.chat), sender, receiver, id, Field(version));
    FieldIff(version, []);
    FieldStart(version);
    assert Field(version) + [] == Field(version);
    var m := MakeMediaID(lib, info, idOverride, receiver, version).value;
    assert m[1..] == BodyOf(lib, NonAD(info.chat), sender, receiver, id, Field(version));
  }

  /** IDs from before there was a type byte, which carry no version, still parse, as long as the
      chat's length cannot be taken for a type. */
  lemma {:induction false} LegacyRoundTrip(lib: Library, chat: JID, sender: JID, receiver: Bytes, id: Bytes)
    requires Fits(lib, chat) && Fits(lib, sender) && Fits(lib, LoginJID(receiver)) && |CompactMsgID(id)| < 0x100
    requires |CompactJID(lib, chat).value| < 0x80
    ensures ParseMediaID(lib, BodyOf(lib, chat, sender, receiver, id, []))
      == Ok(Parsed(Message(chat, sender, id, None), receiver))
  {
    hide CompactJID, CompactMsgID, Keeps, ParseMessage, BodyOf, Fits;
    MessageBody(lib, chat, sender, receiver, id, []);
    BodyStart(lib, chat, sender, receiver, id);
    assert BodyOf(lib, chat, sender, receiver, id, [])[0] < 0x80;
  }

  lemma {:induction false} BodyStart(lib: Library, chat: JID, sender: JID, receiver: Bytes, id: Bytes)
    requires Fits(lib, chat) && Fits(lib, sender) && Fits(lib, LoginJID(receiver))
    ensures CompactJID(lib, chat).Ok?
    ensures var body := BodyOf(lib, chat, sender, receiver, id, []);
      body != [] && body[0] == |CompactJID(lib, chat).value|
  {
    hide CompactJID, CompactMsgID, Keeps;
  }

  lemma {:induction false} AvatarRoundTrip(lib: Library, target: JID, id: Bytes, receiver: Bytes, community: bool)
    requires Fits(lib, NonAD(target)) && Fits(lib, LoginJID(receiver)) && |id| < 0x100
    ensures MakeAvatarMediaID(lib, target, id, receiver, community).Ok?
    ensures ParseMediaID(lib, MakeAvatarMediaID(lib, target, id, receiver, community).value)
         == Ok(Parsed(Avatar(NonAD(target), id, community), receiver))
  {
    hide CompactJID, Keeps, ReadJID, ReadCompact;
    var t, login := Field(CompactJID(lib, NonAD(target)).value), Field(CompactJID(lib, LoginJID(receiver)).value);
    assert MakeAvatarMediaID(lib, target, id, receiver, community).value[1..] == t + (Field(id) + login);
    ReadJIDField(lib, NonAD(target), Field(id) + login);
    FieldIff(id, login);
    ReadJIDField(lib, LoginJID(receiver), []);
    assert login + [] == login;
    LoginRoundTrip(receiver);
  }

  lemma {:induction false} StickerRoundTrip(lib: Library, packID: Bytes, fileHash: Bytes, receiver: Bytes)
    requires Fits(lib, LoginJID(receiver)) && |packID| < 0x100 && |fileHash| < 0x100
    ensures MakeStickerPackMediaID(lib, packID, fileHash, receiver).Ok?
    ensures ParseMediaID(lib, MakeStickerPackMediaID(lib, packID, fileHash, receiver).value)
         == Ok(Parsed(Sticker(packID, fileHash), receiver))
  {
    hide CompactJID, Keeps, ReadJID, ReadCompact;
    var login := Field(CompactJID(lib, LoginJID(receiver)).value);
    assert MakeStickerPackMediaID(lib, packID, fileHash, receiver).value[1..]
        == Field(packID) + (Field(fileHash) + login);
    FieldIff(packID, Field(fileHash) + login);
    FieldIff(fileHash, login);
    ReadJIDField(lib, LoginJID(receiver), []);
    assert login + [] == login;
    LoginRoundTrip(receiver);
  }

  /** Made IDs of different kinds never collide, whatever they are made from. */
  lemma {:induction false} KindsNeverCollide(
      lib: Library, info: MessageInfo, idOverride: Bytes, receiver: Bytes, version: Bytes,
      target: JID, avatarID: Bytes, r2: Bytes, community: bool, packID: Bytes, fileHash: Bytes, r3: Bytes)
    ensures var m := MakeMediaID(lib, info, idOverride, receiver, version);
      var a := MakeAvatarMediaID(lib, target, avatarID, r2, community);
      var s := MakeStickerPackMediaID(lib, packID, fileHash, r3);
      m != a && a != s && m != s && MakeAvatarMediaID(lib, target, avatarID, r2, !community) != a
  {
    EncodersNeverPanic(lib, info, idOverride, receiver, version, target, community);
    EncodersNeverPanic(lib, info, idOverride, r2, version, target, community);
    EncodersNeverPanic(lib, info, idOverride, r3, version, target, community);
    hide CompactJID, CompactMsgID;
    var m := MakeMediaID(lib, info, idOverride, receiver, version);
    var a := MakeAvatarMediaID(lib, target, avatarID, r2, community);
    var s := MakeStickerPackMediaID(lib, packID, fileHash, r3);
    assert m.value[0] == TYPE_MESSAGE && s.value[0] == TYPE_STICKER;
    assert a.value[0] == if community then TYPE_COMMUNITY_AVATAR else TYPE_AVATAR;
  }

  /** The message ID a media ID carries. */
  function OwnOr(idOverride: Bytes, id: Bytes): Bytes { if idOverride != [] then idOverride else id }

  /** A message all of whose parts fit their fields. */
  predicate MessageFits(lib: Library, info: MessageInfo, idOverride: Bytes, receiver: Bytes, version: Bytes) {
    && Fits(lib, NonAD(info.chat)) && Fits(lib, NonAD(PickSender(info.chat, info.sender, info.senderAlt)))
    && Fits(lib, LoginJID(receiver)) && |CompactMsgID(OwnOr(idOverride, info.id))| < 0x100 && |version| < 0x100
  }

  /** Equal media IDs come from equal messages. */
  lemma {:induction false} MessageIDsInjective(
      lib: Library, a: MessageInfo, over: Bytes, receiver: Bytes, version: Bytes,
      b: MessageInfo, over2: Bytes, r2: Bytes, v2: Bytes)
    requires MessageFits(lib, a, over, receiver, version) && MessageFits(lib, b, over2, r2, v2)
    requires MakeMediaID(lib, a, over, receiver, version) == MakeMediaID(lib, b, over2, r2, v2)
    ensures NonAD(a.chat) == NonAD(b.chat) && OwnOr(over, a.id) == OwnOr(over2, b.id) && receiver == r2 && version == v2
    ensures NonAD(PickSender(a.chat, a.sender, a.senderAlt)) == NonAD(PickSender(b.chat, b.sender, b.senderAlt))
  {
    hide Fits, CompactMsgID, MakeMediaID, ParseMediaID;
    MessageRoundTrip(lib, a, over, receiver, version);
    MessageRoundTrip(lib, b, over2, r2, v2);
  }

  /** Equal avatar IDs come from equal avatars. */
  lemma {:induction false} AvatarIDsInjective(
      lib: Library, a: JID, id: Bytes, receiver: Bytes, community: bool, b: JID, id2: Bytes, r2: Bytes, c2: bool)
    requires Fits(lib, NonAD(a)) && Fits(lib, LoginJID(receiver)) && |id| < 0x100
    requires Fits(lib, NonAD(b)) && Fits(lib, LoginJID(r2)) && |id2| < 0x100
    requires MakeAvatarMediaID(lib, a, id, receiver, community) == MakeAvatarMediaID(lib, b, id2, r2, c2)
    ensures NonAD(a) == NonAD(b) && id == id2 && receiver == r2 && community == c2
  {
    hide Fits, MakeAvatarMediaID, ParseMediaID;
    AvatarRoundTrip(lib, a, id, receiver, community);
    AvatarRoundTrip(lib, b, id2, r2, c2);
  }

  /** Equal sticker IDs come from equal stickers. */
  lemma {:induction false} StickerIDsInjective(
      lib: Library, pack: Bytes, hash: Bytes, receiver: Bytes, pack2: Bytes, hash2: Bytes, r2: Bytes)
    requires Fits(lib, LoginJID(receiver)) && |pack| < 0x100 && |hash| < 0x100
    requires Fits(lib, LoginJID(r2)) && |pack2| < 0x100 && |hash2| < 0x100
    requires MakeStickerPackMediaID(lib, pack, hash, receiver) == MakeStickerPackMediaID(lib, pack2, hash2, r2)
    ensures pack == pack2 && hash == hash2 && receiver == r2
  {
    hide Fits, MakeStickerPackMediaID, ParseMediaID;
    StickerRoundTrip(lib, pack, hash, receiver);
    StickerRoundTrip(lib, pack2, hash2, r2);
  }
}
