/** The pure half of the controller (fpController.py): how a reply header is
    validated and how values are sliced out of reply headers and body packets. */
module Responses {
  import opened Wire
  import opened Fingerprint

  const HEAD: Byte := 0xF5
  const TAIL: Byte := 0xF5

  /** Largest raw image, in bytes, the image upload accepts. */
  const IMG_MAX := 9176
  /** Largest extracted eigenvalue, in bytes, the eigenvalue upload accepts. */
  const EIGENVALUE_MAX := 193

  /** Why a controller call raises instead of returning. */
  datatype Fault =
    | Truncated           // IndexError: the bytes read are shorter than a field the code indexes
    | BadMarkers          // AssertionError: first or last byte is not 0xF5
    | DatabaseFull        // status ACK_FULL
    | AcquisitionTimeout  // status ACK_TIMEOUT
    | Failed              // status ACK_FAIL
    | UserExists          // status ACK_USER_EXIST
    | NoUser              // status ACK_NO_USER
    | Oversized           // AssertionError: uploaded data longer than its maximum
    | BadArgument(cause: BuildError)  // the frame builder raised before anything was written

  /** The status bytes that `is_valid` turns into a failure. */
  const FAILURE_CODES: set<Byte> := {ACK_FAIL, ACK_FULL, ACK_NO_USER, ACK_USER_EXIST, ACK_TIMEOUT}

  /** The first and the last byte are the 0xF5 marker. */
  predicate Marked(bs: seq<Byte>)
  {
    |bs| > 0 && bs[0] == HEAD && bs[|bs| - 1] == TAIL
  }

  /** `is_valid`: the markers are checked first, then the status byte at index 4.
      Five status bytes raise, each with its own failure; every other status
      byte, including ACK_FIN_EXIST and ACK_GO_OUT, is accepted. The second
      ACK_NO_USER test of the source can never be reached and has no branch here. */
  function IsValid(res: seq<Byte>): (v: Outcome<Fault>)
    ensures v.Pass? <==> Marked(res) && |res| >= 5 && res[4] !in FAILURE_CODES
    ensures res == [] ==> v == Fail(Truncated)
    ensures |res| > 0 && !Marked(res) ==> v == Fail(BadMarkers)
    ensures Marked(res) && |res| < 5 ==> v == Fail(Truncated)
    ensures Marked(res) && |res| >= 5 ==>
              (v == Fail(DatabaseFull) <==> res[4] == ACK_FULL) &&
              (v == Fail(AcquisitionTimeout) <==> res[4] == ACK_TIMEOUT) &&
              (v == Fail(Failed) <==> res[4] == ACK_FAIL) &&
              (v == Fail(UserExists) <==> res[4] == ACK_USER_EXIST) &&
              (v == Fail(NoUser) <==> res[4] == ACK_NO_USER)
  {
    if |res| == 0 then Fail(Truncated)
    else if res[0] != HEAD || res[|res| - 1] != TAIL then Fail(BadMarkers)
    else if |res| < 5 then Fail(Truncated)
    else
      var status := res[4];
      if status == ACK_SUCCESS then Pass
      else if status == ACK_FULL then Fail(DatabaseFull)
      else if status == ACK_TIMEOUT then Fail(AcquisitionTimeout)
      else if status == ACK_FAIL then Fail(Failed)
      else if status == ACK_USER_EXIST then Fail(UserExists)
      else if status == ACK_NO_USER then Fail(NoUser)
      else Pass
  }

  /** A reply header as the module sends it: marker, echoed opcode, two value
      bytes, status, a reserved zero, a check byte, marker. */
  function ReplyFrame(op: Byte, a: Byte, b: Byte, status: Byte, check: Byte): seq<Byte>
  {
    [HEAD, op, a, b, status, 0, check, TAIL]
  }

  /** The check byte of a reply is never inspected: a reply is accepted exactly
      when its status is not a failure code, whatever its check byte. */
  lemma ReplyCheckByteIgnored(op: Byte, a: Byte, b: Byte, status: Byte, c1: Byte, c2: Byte)
    ensures IsValid(ReplyFrame(op, a, b, status, c1)) == IsValid(ReplyFrame(op, a, b, status, c2))
    ensures IsValid(ReplyFrame(op, a, b, status, c1)).Pass? <==> status !in FAILURE_CODES
  {
  }

  /** The big-endian value in bytes 2-3 of a header: the reply's count or body length. */
  function DeclaredLength(head: seq<Byte>): (n: nat)
    requires |head| >= 4
    ensures n == head[2] as int * 256 + head[3] as int && n < 0x1_0000
  {
    BigEndianPair(head[2], head[3]);
    assert head[2..4] == [head[2], head[3]];
    BigEndian(head[2..4])
  }

  // ---------------------------------------------------------------------------
  // Single-frame getters

  /** `get_total_user_cnt`: the big-endian value of bytes 2-3 of an accepted reply. */
  function UserCount(res: seq<Byte>): (r: Result<nat, Fault>)
    ensures r.Ok? <==> IsValid(res).Pass?
    ensures r.Err? ==> IsValid(res).Fail? && r.error == IsValid(res).error
    ensures r.Ok? ==> r.value == res[2] as int * 256 + res[3] as int && r.value < 0x1_0000
  {
    match IsValid(res)
    case Fail(f) => Err(f)
    case Pass => Ok(DeclaredLength(res))
  }

  /** A count of up to 65535 users sent big-endian in a success reply is read back unchanged. */
  lemma UserCountRoundTrip(n: nat, check: Byte)
    requires n < 0x1_0000
    ensures UserCount(ReplyFrame(CMD_USER_CNT, n / 256, n % 256, ACK_SUCCESS, check)) == Ok(n)
  {
  }

  datatype RepeatMode = AllowRepeat | ProhibitRepeat

  /** `get_fingerprint_mode`: byte 3 of an accepted reply, 0 meaning repeats are
      allowed and 1 that they are prohibited; any other value gives no answer. */
  function RepeatPolicy(res: seq<Byte>): (r: Result<Option<RepeatMode>, Fault>)
    ensures r.Ok? <==> IsValid(res).Pass?
    ensures r.Err? ==> IsValid(res).Fail? && r.error == IsValid(res).error
    ensures r.Ok? ==> (r.value == Some(AllowRepeat) <==> res[3] == 0) &&
                      (r.value == Some(ProhibitRepeat) <==> res[3] == 1) &&
                      (r.value == None <==> res[3] > 1)
  {
    match IsValid(res)
    case Fail(f) => Err(f)
    case Pass =>
      if res[3] == 0 then Ok(Some(AllowRepeat))
      else if res[3] == 1 then Ok(Some(ProhibitRepeat))
      else Ok(None)
  }

  /** Reading the add mode inverts setting it: a reply echoing at byte 3 the
      repeat byte of a "set" frame decodes to the policy that frame set. */
  lemma RepeatPolicyInvertsMode(repeat: bool, status: Byte, check: Byte)
    requires status !in FAILURE_CODES
    ensures FingerprintMode("set", repeat).Ok?
    ensures RepeatPolicy(ReplyFrame(CMD_ADD_MODE, 0, FingerprintMode("set", repeat).value[3], status, check))
            == Ok(Some(if repeat then AllowRepeat else ProhibitRepeat))
  {
  }

  /** `get_compparison_level` and `get_timeout`: byte 3 of an accepted reply. */
  function HeaderValue(res: seq<Byte>): (r: Result<Byte, Fault>)
    ensures r.Ok? <==> IsValid(res).Pass?
    ensures r.Err? ==> IsValid(res).Fail? && r.error == IsValid(res).error
    ensures r.Ok? ==> r.value == res[3]
  {
    match IsValid(res)
    case Fail(f) => Err(f)
    case Pass => Ok(res[3])
  }

  /** A level or timeout that a setter placed at byte 3 is what the getter reads
      back from a success reply carrying that byte. */
  lemma ConfigurationReadBack(level: int, timeout: int, check: Byte)
    requires 0 <= level <= 9 && 0 <= timeout <= 255
    ensures SetCompLevelAsWritten(level).Ok? && SetTimeout(timeout).Ok?
    ensures HeaderValue(ReplyFrame(CMD_COMP_LEV, 0, SetCompLevelAsWritten(level).value[3], ACK_SUCCESS, check)) == Ok(level)
    ensures HeaderValue(ReplyFrame(CMD_TIMEOUT, 0, SetTimeout(timeout).value[3], ACK_SUCCESS, check)) == Ok(timeout)
  {
  }

  /** `compare_fingerprint_get_id`: the two raw id bytes of an accepted reply. */
  function MatchedId(res: seq<Byte>): (r: Result<seq<Byte>, Fault>)
    ensures r.Ok? <==> IsValid(res).Pass?
    ensures r.Err? ==> IsValid(res).Fail? && r.error == IsValid(res).error
    ensures r.Ok? ==> r.value == [res[2], res[3]]
  {
    match IsValid(res)
    case Fail(f) => Err(f)
    case Pass => Ok(res[2..4])
  }

  /** `send_egval_and_find_id_privilege`: the id bytes and the status byte of an
      accepted reply. The markers are asserted before `is_valid` runs, with the
      same failures `is_valid` itself gives. */
  function MatchedUser(res: seq<Byte>): (r: Result<(seq<Byte>, Byte), Fault>)
    ensures r.Ok? <==> IsValid(res).Pass?
    ensures r.Err? ==> IsValid(res).Fail? && r.error == IsValid(res).error
    ensures r.Ok? ==> r.value.0 == [res[2], res[3]] && r.value.1 == res[4] && r.value.1 !in FAILURE_CODES
  {
    if |res| == 0 then Err(Truncated)
    else if !Marked(res) then Err(BadMarkers)
    else
      match IsValid(res)
      case Fail(f) => Err(f)
      case Pass => Ok((res[2..4], res[4]))
  }

  /** `get_user_privilege`: the status byte itself is the privilege; only
      ACK_NO_USER raises, and the markers are not checked. */
  function Privilege(res: seq<Byte>): (r: Result<Byte, Fault>)
    ensures r.Ok? <==> |res| >= 5 && res[4] != ACK_NO_USER
    ensures |res| < 5 ==> r == Err(Truncated)
    ensures |res| >= 5 && res[4] == ACK_NO_USER ==> r == Err(NoUser)
    ensures r.Ok? ==> r.value == res[4]
  {
    if |res| < 5 then Err(Truncated)
    else if res[4] == ACK_NO_USER then Err(NoUser)
    else Ok(res[4])
  }

  /** The status byte means different things per command: a guest privilege
      (1) is a privilege to the privilege query and ACK_FAIL to `is_valid`. */
  lemma StatusByteOverload(op: Byte, a: Byte, b: Byte, check: Byte)
    ensures Privilege(ReplyFrame(op, a, b, ACK_GUEST_USER, check)) == Ok(ACK_GUEST_USER)
    ensures IsValid(ReplyFrame(op, a, b, ACK_GUEST_USER, check)) == Fail(Failed)
    ensures Privilege(ReplyFrame(op, a, b, ACK_NORMAL_USER, check)) == Ok(ACK_NORMAL_USER)
    ensures IsValid(ReplyFrame(op, a, b, ACK_NORMAL_USER, check)) == Pass
  {
  }

  // ---------------------------------------------------------------------------
  // Body packets: marker, data, check byte, marker

  /** The data of a body packet, `packet[1:len(packet) - 2]`, after asserting its markers. */
  function BodyData(packet: seq<Byte>): (r: Result<seq<Byte>, Fault>)
    ensures r.Ok? <==> Marked(packet)
    ensures packet == [] ==> r == Err(Truncated)
    ensures packet != [] && !Marked(packet) ==> r == Err(BadMarkers)
    ensures r.Ok? && |packet| >= 3 ==> r.value == packet[1..|packet| - 2]
    ensures r.Ok? && |packet| < 3 ==> r.value == []
  {
    if |packet| == 0 then Err(Truncated)
    else if !Marked(packet) then Err(BadMarkers)
    else Ok(PySlice(packet, 1, |packet| - 2))
  }

  /** A body read of `declared + 3` bytes that arrives whole yields exactly
      `declared` data bytes: the data between the start marker and the check byte. */
  lemma BodyRoundTrip(data: seq<Byte>, check: Byte)
    ensures |[HEAD] + data + [check, TAIL]| == |data| + 3
    ensures BodyData([HEAD] + data + [check, TAIL]) == Ok(data)
  {
    var p := [HEAD] + data + [check, TAIL];
    assert p[1..|p| - 2] == data;
  }

  /** `get_dsp_module_version` and `acquire_uploaded_imgs` read this many body bytes. */
  function BodyLength(head: seq<Byte>): nat
    requires |head| >= 4
  {
    DeclaredLength(head) + 3
  }

  /** `acquire_uploaded_imgs`: the body data, refused when longer than IMG_MAX. */
  function ImageData(packet: seq<Byte>): (r: Result<seq<Byte>, Fault>)
    ensures r.Ok? <==> BodyData(packet).Ok? && |BodyData(packet).value| <= IMG_MAX
    ensures BodyData(packet).Ok? && |BodyData(packet).value| > IMG_MAX ==> r == Err(Oversized)
    ensures BodyData(packet).Err? ==> r == BodyData(packet)
    ensures r.Ok? ==> r.value == BodyData(packet).value
  {
    match BodyData(packet)
    case Err(f) => Err(f)
    case Ok(data) => if |data| <= IMG_MAX then Ok(data) else Err(Oversized)
  }

  /** `extracted_uploaded_eigenvalue`: `packet[4:-2]` after asserting the markers,
      refused when longer than 193 bytes. */
  function EigenvalueData(packet: seq<Byte>): (r: Result<seq<Byte>, Fault>)
    ensures packet == [] ==> r == Err(Truncated)
    ensures packet != [] && !Marked(packet) ==> r == Err(BadMarkers)
    ensures Marked(packet) && |packet| >= 6 ==>
              (r.Ok? <==> |packet| - 6 <= EIGENVALUE_MAX) &&
              (r.Ok? ==> r.value == packet[4..|packet| - 2]) &&
              (r.Err? ==> r.error == Oversized)
    ensures Marked(packet) && |packet| < 6 ==> r == Ok([])
  {
    if |packet| == 0 then Err(Truncated)
    else if !Marked(packet) then Err(BadMarkers)
    else
      var data := PySlice(packet, 4, -2);
      if |data| <= EIGENVALUE_MAX then Ok(data) else Err(Oversized)
  }

  /** The record `get_specifed_eigen_val_by_id` returns. */
  datatype StoredTemplate = StoredTemplate(id: seq<Byte>, privilege: Byte, template: seq<Byte>)

  /** `get_specifed_eigen_val_by_id`: id from bytes 1-2, privilege from byte 3 and
      the template `packet[4:-2]`; the packet's markers are not checked. */
  function TemplateRecord(packet: seq<Byte>): (r: Result<StoredTemplate, Fault>)
    ensures r.Ok? <==> |packet| >= 4
    ensures r.Err? ==> r.error == Truncated
    ensures r.Ok? ==> r.value.id == packet[1..3] && r.value.privilege == packet[3] &&
                      r.value.template == PySlice(packet, 4, -2)
  {
    if |packet| < 4 then Err(Truncated)
    else Ok(StoredTemplate(PySlice(packet, 1, 3), packet[3], PySlice(packet, 4, -2)))
  }

  /** A template packet as the download builders lay it out is read back by the
      upload readers: the id bytes, the privilege and the template, unchanged. */
  lemma {:induction false} TemplatePacketRoundTrip(a: Byte, b: Byte, c: Byte, template: seq<Byte>, check: Byte)
    ensures TemplateRecord(TemplatePacket(a, b, c, template, check)) == Ok(StoredTemplate([a, b], c, template))
    ensures EigenvalueData(TemplatePacket(a, b, c, template, check)) ==
              (if |template| <= EIGENVALUE_MAX then Ok(template) else Err(Oversized))
  {
    var p := TemplatePacket(a, b, c, template, check);
    assert PySlice(p, 4, -2) == p[4..|p| - 2] == template;
    assert PySlice(p, 1, 3) == [a, b];
  }

  /** The upload readers take `declared + 3` bytes after the header, and a template
      packet is `|template| + 6` bytes: a header that declares `|template| + 3` has the
      whole packet read and the stored record recovered. */
  lemma UploadedTemplateRead(head: seq<Byte>, a: Byte, b: Byte, c: Byte, template: seq<Byte>, check: Byte)
    requires |head| >= 4 && DeclaredLength(head) == |template| + 3
    ensures TemplateRecord(Take(TemplatePacket(a, b, c, template, check), BodyLength(head))) ==
              Ok(StoredTemplate([a, b], c, template))
  {
    var p := TemplatePacket(a, b, c, template, check);
    assert Take(p, BodyLength(head)) == p;
    TemplatePacketRoundTrip(a, b, c, template, check);
  }

  /** What `download_eigenvalue_save_by_id` sends is what `get_specifed_eigen_val_by_id`
      reads back: the header declares the template length, and the packet after it
      gives the id bytes, the privilege and the template. The download header's
      `|template|` counts the template alone; an upload header carrying the same
      record must declare `|template| + 3` for the reader to take the whole packet
      (UploadedTemplateRead). */
  lemma SavedTemplateReadBack(u: UserId, draw: Draw, template: seq<Byte>, privilege: int)
    requires DownloadEigenvalueSaveById(u, draw, template, privilege).Ok?
    ensures var bs := DownloadEigenvalueSaveById(u, draw, template, privilege).value;
            var (hi, lo) := IdToByte(u, draw).value;
            DeclaredLength(bs[..8]) == |template| &&
            TemplateRecord(bs[8..]) == Ok(StoredTemplate([hi, lo], privilege, template))
  {
    var bs := DownloadEigenvalueSaveById(u, draw, template, privilege).value;
    var (hi, lo) := IdToByte(u, draw).value;
    assert bs[..8][2..4] == bs[2..4];
    BigEndianPair(bs[2], bs[3]);
    TemplatePacketRoundTrip(hi, lo, privilege, template, Xor(hi, template[1]));
  }

  // ---------------------------------------------------------------------------
  // The user table

  /** One (id, privilege) record of the user table. */
  datatype User = User(id: seq<Byte>, privilege: Byte)

  /** The records of `get_all_users`: record `i` takes bytes `3i..3i+2`, the id
      the first two and the privilege the third. Reading the privilege of a
      record past the end of the data raises. */
  function UserRecords(data: seq<Byte>, num: nat): (r: Result<seq<User>, Fault>)
    ensures r.Ok? <==> 3 * num <= |data|
    ensures r.Err? ==> r.error == Truncated
    ensures r.Ok? ==> |r.value| == num
    ensures r.Ok? ==> forall i :: 0 <= i < num ==>
              r.value[i].id == data[3 * i..3 * i + 2] && r.value[i].privilege == data[3 * i + 2]
  {
    if 3 * num <= |data| then
      Ok(seq(num, i requires 0 <= i < num => User(data[3 * i..3 * i + 2], data[3 * i + 2])))
    else
      Err(Truncated)
  }

  /** `get_all_users` after its header: the markers are asserted, the record count
      is `packet[1:3]` read big-endian and the records are `packet[3:-2]`. */
  function UserTable(packet: seq<Byte>): (r: Result<seq<User>, Fault>)
    ensures packet == [] ==> r == Err(Truncated)
    ensures packet != [] && !Marked(packet) ==> r == Err(BadMarkers)
    ensures Marked(packet) ==> r == UserRecords(PySlice(packet, 3, -2), BigEndian(PySlice(packet, 1, 3)))
  {
    if |packet| == 0 then Err(Truncated)
    else if !Marked(packet) then Err(BadMarkers)
    else UserRecords(PySlice(packet, 3, -2), BigEndian(PySlice(packet, 1, 3)))
  }

  /** The bytes of a list of records, three per user. */
  function EncodeUsers(users: seq<User>): seq<Byte>
  {
    if users == [] then [] else EncodeUsers(users[..|users| - 1]) + users[|users| - 1].id + [users[|users| - 1].privilege]
  }

  predicate TwoByteIds(users: seq<User>)
  {
    forall i :: 0 <= i < |users| ==> |users[i].id| == 2
  }

  lemma {:induction false} EncodeUsersAt(users: seq<User>, i: nat)
    requires TwoByteIds(users) && i < |users|
    ensures |EncodeUsers(users)| == 3 * |users|
    ensures EncodeUsers(users)[3 * i..3 * i + 2] == users[i].id
    ensures EncodeUsers(users)[3 * i + 2] == users[i].privilege
  {
    var n := |users|;
    var init := users[..n - 1];
    assert TwoByteIds(init) by {
      forall j | 0 <= j < |init| ensures |init[j].id| == 2 { assert init[j] == users[j]; }
    }
    EncodeUsersLength(init);
    if i < n - 1 {
      EncodeUsersAt(init, i);
      assert init[i] == users[i];
    }
  }

  lemma {:induction false} EncodeUsersLength(users: seq<User>)
    requires TwoByteIds(users)
    ensures |EncodeUsers(users)| == 3 * |users|
  {
    if users != [] {
      var init := users[..|users| - 1];
      assert TwoByteIds(init) by {
        forall j | 0 <= j < |init| ensures |init[j].id| == 2 { assert init[j] == users[j]; }
      }
      EncodeUsersLength(init);
    }
  }

  /** A user-table packet as the module lays it out: marker, record count
      big-endian, the records, check byte, marker. */
  function UserTablePacket(users: seq<User>, check: Byte): seq<Byte>
    requires |users| < 0x1_0000
  {
    [HEAD, |users| / 256, |users| % 256] + EncodeUsers(users) + [check, TAIL]
  }

  /** Any list of up to 65535 records with two-byte ids survives a trip through
      a user-table packet: same records, same order. */
  lemma UserTableRoundTrip(users: seq<User>, check: Byte)
    requires |users| < 0x1_0000 && TwoByteIds(users)
    ensures UserTable(UserTablePacket(users, check)) == Ok(users)
  {
    var p := UserTablePacket(users, check);
    var data := EncodeUsers(users);
    EncodeUsersLength(users);
    assert PySlice(p, 1, 3) == [|users| / 256, |users| % 256];
    BigEndianPair(|users| / 256, |users| % 256);
    assert PySlice(p, 3, -2) == data;
    var r := UserRecords(data, |users|);
    assert r.Ok?;
    forall i | 0 <= i < |users| ensures r.value[i] == users[i] {
      EncodeUsersAt(users, i);
    }
    assert r.value == users;
  }
}
