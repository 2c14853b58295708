/** The exchanges of the controller (fpController.py): each call writes one frame
    to the serial port, reads the 8-byte reply header (and, for uploads, a body
    packet) and interprets it. The port is an abstract channel: a log of the
    frames written and the stream of bytes the module has sent and no read has
    consumed yet. */
module Controller {
  import opened Wire
  import opened Fingerprint
  import opened Responses

  /** The serial link. A read of `n` bytes returns fewer when the stream runs
      dry, as a read does once its timeout has passed. */
  class SerialPort {
    /** Every frame written, oldest first. */
    var written: seq<seq<Byte>>
    /** Bytes the module has sent that no read has consumed yet. */
    var inbox: seq<Byte>

    constructor (incoming: seq<Byte>)
      ensures written == [] && inbox == incoming
    {
      written := [];
      inbox := incoming;
    }

    method Write(frame: seq<Byte>)
      modifies this
      ensures written == old(written) + [frame] && inbox == old(inbox)
    {
      written := written + [frame];
    }

    method Read(n: nat) returns (r: seq<Byte>)
      modifies this
      ensures r == Take(old(inbox), n) && inbox == Drop(old(inbox), n)
      ensures written == old(written)
    {
      r := Take(inbox, n);
      inbox := Drop(inbox, n);
    }
  }

  // ---------------------------------------------------------------------------
  // Enrolment: three capture steps, stopping at the first one that fails

  /** The reply to the `i`-th of a run of single-frame commands: eight bytes, or
      what is left of the stream. */
  function Reply(inbox: seq<Byte>, i: nat): seq<Byte>
  {
    Take(Drop(inbox, 8 * i), 8)
  }

  lemma ReplyFirst(inbox: seq<Byte>)
    ensures Reply(inbox, 0) == Take(inbox, 8)
  {
    assert Drop(inbox, 0) == inbox;
  }

  lemma ReplyShift(inbox: seq<Byte>, i: nat)
    ensures Reply(Drop(inbox, 8), i) == Reply(inbox, i + 1)
  {
    DropDrop(inbox, 8, 8 * i);
  }

  /** The verdicts of `is_valid` on the replies to the first `n` of a run of
      single-frame commands. */
  function Verdicts(inbox: seq<Byte>, n: nat): (v: seq<Outcome<Fault>>)
    ensures |v| == n
    ensures forall i :: 0 <= i < n ==> v[i] == IsValid(Reply(inbox, i))
  {
    seq(n, i requires 0 <= i < n => IsValid(Reply(inbox, i)))
  }

  /** The verdicts on the replies after the first are those on the stream that
      follows the first reply. */
  lemma VerdictsShift(inbox: seq<Byte>, n: nat)
    ensures Verdicts(inbox, n + 1)[1..] == Verdicts(Drop(inbox, 8), n)
  {
    forall i | 0 <= i < n
      ensures Verdicts(inbox, n + 1)[1..][i] == Verdicts(Drop(inbox, 8), n)[i]
    {
      ReplyShift(inbox, i);
    }
  }

  /** The frames written and the outcome of a run of capture steps. */
  datatype Enrolment = Enrolment(sent: seq<seq<Byte>>, outcome: Outcome<Fault>)

  /** A run of capture steps, each with the verdict on its reply: each step's
      frame is built, written and its reply validated, and the run stops at the
      first frame that cannot be built (nothing is written for it) or the first
      reply that is rejected. */
  function Enrol(steps: seq<Result<seq<Byte>, BuildError>>, verdicts: seq<Outcome<Fault>>): (e: Enrolment)
    requires |verdicts| == |steps|
    ensures |e.sent| <= |steps|
    ensures e.outcome.Pass? ==> |e.sent| == |steps|
    decreases |steps|
  {
    if steps == [] then Enrolment([], Pass)
    else
      match steps[0]
      case Err(cause) => Enrolment([], Fail(BadArgument(cause)))
      case Ok(frame) =>
        match verdicts[0]
        case Fail(f) => Enrolment([frame], Fail(f))
        case Pass =>
          var rest := Enrol(steps[1..], verdicts[1..]);
          Enrolment([frame] + rest.sent, rest.outcome)
  }

  /** Step `i` goes through: its frame is built and its reply accepted. */
  predicate Passes(steps: seq<Result<seq<Byte>, BuildError>>, verdicts: seq<Outcome<Fault>>, i: nat)
    requires i < |steps| == |verdicts|
  {
    steps[i].Ok? && verdicts[i].Pass?
  }

  /** One step of a run, unfolded: a step that cannot be built ends the run
      with nothing written, a rejected reply ends it after its frame, and an
      accepted reply lets the rest of the run go on. */
  lemma EnrolStep(steps: seq<Result<seq<Byte>, BuildError>>, verdicts: seq<Outcome<Fault>>)
    requires steps != [] && |verdicts| == |steps|
    ensures steps[0].Err? ==> Enrol(steps, verdicts) == Enrolment([], Fail(BadArgument(steps[0].error)))
    ensures steps[0].Ok? && verdicts[0].Fail? ==> Enrol(steps, verdicts) == Enrolment([steps[0].value], verdicts[0])
    ensures steps[0].Ok? && verdicts[0].Pass? ==>
              Enrol(steps, verdicts) ==
                Enrolment([steps[0].value] + Enrol(steps[1..], verdicts[1..]).sent,
                          Enrol(steps[1..], verdicts[1..]).outcome)
  {
  }

  /** The frames of a run, each as the successful build it came from. */
  function Built(sent: seq<seq<Byte>>): (r: seq<Result<seq<Byte>, BuildError>>)
    ensures |r| == |sent|
    ensures forall i :: 0 <= i < |sent| ==> r[i] == Ok(sent[i])
  {
    seq(|sent|, i requires 0 <= i < |sent| => Ok(sent[i]))
  }

  /** Appending one frame and then the rest of a run is appending the run. */
  lemma AppendCons<T>(log: seq<T>, x: T, rest: seq<T>)
    ensures log + ([x] + rest) == (log + [x]) + rest
  {
  }

  /** When every step goes through, every frame is written, in order, and the run passes. */
  lemma {:induction false} EnrolAllPass(steps: seq<Result<seq<Byte>, BuildError>>, verdicts: seq<Outcome<Fault>>)
    requires |verdicts| == |steps|
    requires forall i :: 0 <= i < |steps| ==> Passes(steps, verdicts, i)
    ensures Enrol(steps, verdicts).outcome == Pass
    ensures Built(Enrol(steps, verdicts).sent) == steps
  {
    if steps != [] {
      assert Passes(steps, verdicts, 0);
      var tail, rest := steps[1..], verdicts[1..];
      forall i | 0 <= i < |tail|
        ensures Passes(tail, rest, i)
      {
        assert Passes(steps, verdicts, i + 1);
      }
      EnrolAllPass(tail, rest);
      var t := Enrol(tail, rest).sent;
      assert Built([steps[0].value] + t) == [steps[0]] + Built(t);
    }
  }

  /** When step `k` is the first that does not go through, the frames of steps
      0..k-1 are written in order, then step k's frame if it could be built, and
      nothing after it; the outcome is step k's failure. */
  lemma {:induction false} EnrolStopsAt(steps: seq<Result<seq<Byte>, BuildError>>, verdicts: seq<Outcome<Fault>>, k: nat)
    requires k < |steps| == |verdicts| && !Passes(steps, verdicts, k)
    requires forall i :: 0 <= i < k ==> Passes(steps, verdicts, i)
    ensures |Enrol(steps, verdicts).sent| == (if steps[k].Ok? then k + 1 else k)
    ensures Built(Enrol(steps, verdicts).sent) == steps[..|Enrol(steps, verdicts).sent|]
    ensures Enrol(steps, verdicts).outcome ==
              (if steps[k].Err? then Fail(BadArgument(steps[k].error)) else verdicts[k])
  {
    if k == 0 {
      if steps[0].Ok? {
        assert Built([steps[0].value]) == [steps[0]];
      }
    } else {
      assert Passes(steps, verdicts, 0);
      var tail, rest := steps[1..], verdicts[1..];
      forall i | 0 <= i < k - 1
        ensures Passes(tail, rest, i)
      {
        assert Passes(steps, verdicts, i + 1);
      }
      EnrolStopsAt(tail, rest, k - 1);
      var t := Enrol(tail, rest).sent;
      assert Built([steps[0].value] + t) == [steps[0]] + Built(t);
      assert steps[..|t| + 1] == [steps[0]] + tail[..|t|];
    }
  }

  /** A run passes exactly when every one of its steps goes through. */
  lemma {:induction false} EnrolPassIff(steps: seq<Result<seq<Byte>, BuildError>>, verdicts: seq<Outcome<Fault>>)
    requires |verdicts| == |steps|
    ensures Enrol(steps, verdicts).outcome.Pass? <==> forall i :: 0 <= i < |steps| ==> Passes(steps, verdicts, i)
  {
    if steps != [] {
      var tail, rest := steps[1..], verdicts[1..];
      EnrolPassIff(tail, rest);
      if Passes(steps, verdicts, 0) {
        forall i | 0 <= i < |tail|
          ensures Passes(tail, rest, i) <==> Passes(steps, verdicts, i + 1)
        {
        }
        if forall i :: 0 <= i < |tail| ==> Passes(tail, rest, i) {
          forall i | 0 <= i < |steps|
            ensures Passes(steps, verdicts, i)
          {
            if i > 0 {
              assert Passes(tail, rest, i - 1);
            }
          }
        } else {
          var j :| 0 <= j < |tail| && !Passes(tail, rest, j);
          assert !Passes(steps, verdicts, j + 1);
        }
      } else {
        assert !Passes(steps, verdicts, 0);
      }
    }
  }

  /** The three capture frames of `add_fingerprint`, each with the default
      privilege and each converting the id afresh (an empty id draws anew). */
  function EnrolSteps(u: UserId, d1: Draw, d2: Draw, d3: Draw): (steps: seq<Result<seq<Byte>, BuildError>>)
    ensures |steps| == 3
    ensures steps[0].Ok? ==> IsCommandFrame(steps[0].value, CMD_ADD_1)
    ensures steps[1].Ok? ==> IsCommandFrame(steps[1].value, CMD_ADD_2)
    ensures steps[2].Ok? ==> IsCommandFrame(steps[2].value, CMD_ADD_3)
  {
    [AddFingerprintFirst(u, d1, DEFAULT_PRIVILEGE),
     AddFingerprintSecond(u, d2, DEFAULT_PRIVILEGE),
     AddFingerprintThird(u, d3, DEFAULT_PRIVILEGE)]
  }

  /** A well-formed reply with status ACK_USER_EXIST to the first capture ends the
      enrolment: only the first frame is ever written. */
  lemma EnrolmentUserExists(u: UserId, d1: Draw, d2: Draw, d3: Draw, inbox: seq<Byte>)
    requires IdToByte(u, d1).Ok?
    requires |inbox| >= 8 && inbox[0] == HEAD && inbox[7] == TAIL && inbox[4] == ACK_USER_EXIST
    ensures Enrol(EnrolSteps(u, d1, d2, d3), Verdicts(inbox, 3)) ==
              Enrolment([AddFingerprintFirst(u, d1, DEFAULT_PRIVILEGE).value], Fail(UserExists))
  {
    assert Reply(inbox, 0) == inbox[..8];
  }

  /** Three accepted replies complete the enrolment with the add-1, add-2 and
      add-3 frames written in that order. */
  lemma EnrolmentCompletes(u: UserId, d1: Draw, d2: Draw, d3: Draw, inbox: seq<Byte>)
    requires IdToByte(u, d1).Ok? && IdToByte(u, d2).Ok? && IdToByte(u, d3).Ok?
    requires forall i :: 0 <= i < 3 ==> IsValid(Reply(inbox, i)).Pass?
    ensures var e := Enrol(EnrolSteps(u, d1, d2, d3), Verdicts(inbox, 3));
            e.outcome == Pass && Built(e.sent) == EnrolSteps(u, d1, d2, d3)
  {
    var steps, verdicts := EnrolSteps(u, d1, d2, d3), Verdicts(inbox, 3);
    assert forall i :: 0 <= i < 3 ==> Passes(steps, verdicts, i);
    EnrolAllPass(steps, verdicts);
  }

  // ---------------------------------------------------------------------------
  // The user table loop

  /** The loop of `get_all_users`: one (id, privilege) record per three bytes,
      appended in order; a privilege index past the data raises. */
  method CollectUsers(data: seq<Byte>, num: nat) returns (r: Result<seq<User>, Fault>)
    ensures r == UserRecords(data, num)
  {
    var users: seq<User> := [];
    var idx := 0;
    while idx < num
      invariant 0 <= idx <= num && 3 * idx <= |data|
      invariant |users| == idx
      invariant forall i :: 0 <= i < idx ==>
                  users[i].id == data[3 * i..3 * i + 2] && users[i].privilege == data[3 * i + 2]
    {
      var idIdx := 3 * idx;
      var priIdx := 3 * idx + 2;
      if priIdx >= |data| {
        return Err(Truncated);
      }
      var userId := PySlice(data, idIdx, idIdx + 2);
      users := users + [User(userId, data[priIdx])];
      idx := idx + 1;
    }
    assert users == UserRecords(data, num).value;
    r := Ok(users);
  }

  // ---------------------------------------------------------------------------
  // The controller

  class FpController {
    const ser: SerialPort

    constructor (port: SerialPort)
      ensures ser == port
    {
      ser := port;
    }

    /** The frame went out and `n` bytes (or what there was) were read. */
    twostate predicate Sent(frame: seq<Byte>, n: nat)
      reads ser
    {
      ser.written == old(ser.written) + [frame] && ser.inbox == Drop(old(ser.inbox), n)
    }

    /** Write a frame and read its 8-byte reply header. */
    method Transact(frame: seq<Byte>) returns (res: seq<Byte>)
      modifies ser
      ensures Sent(frame, 8)
      ensures res == Take(old(ser.inbox), 8)
    {
      ser.Write(frame);
      res := ser.Read(8);
    }

    /** Write a frame built by a builder that may raise, then validate its reply. */
    method Command(frame: Result<seq<Byte>, BuildError>) returns (r: Outcome<Fault>)
      modifies ser
      ensures frame.Err? ==> r == Fail(BadArgument(frame.error)) && unchanged(ser)
      ensures frame.Ok? ==> Sent(frame.value, 8) && r == IsValid(Take(old(ser.inbox), 8))
    {
      if frame.Err? {
        return Fail(BadArgument(frame.error));
      }
      var res := Transact(frame.value);
      r := IsValid(res);
    }

    /** `set_dormant_state`: the reply is read and not looked at. */
    method SetDormantState()
      modifies ser
      ensures Sent(Fingerprint.SetDormantState(), 8)
    {
      var _ := Transact(Fingerprint.SetDormantState());
    }

    method GetFingerprintMode() returns (r: Result<Option<RepeatMode>, Fault>)
      modifies ser
      ensures FingerprintMode("read", true).Ok?
      ensures Sent(FingerprintMode("read", true).value, 8)
      ensures r == RepeatPolicy(Take(old(ser.inbox), 8))
    {
      var res := Transact(FingerprintMode("read", true).value);
      r := RepeatPolicy(res);
    }

    method SetFingerprintMode(repeat: bool) returns (r: Outcome<Fault>)
      modifies ser
      ensures FingerprintMode("set", repeat).Ok?
      ensures Sent(FingerprintMode("set", repeat).value, 8)
      ensures r == IsValid(Take(old(ser.inbox), 8))
    {
      r := Command(FingerprintMode("set", repeat));
    }

    /** Send capture steps in turn, each built frame written and its reply
        validated, stopping at the first that cannot be built or whose reply is
        rejected. The builders are pure, so building a step before the previous
        reply has been read changes nothing that can be observed. */
    method RunSteps(steps: seq<Result<seq<Byte>, BuildError>>) returns (r: Outcome<Fault>)
      modifies ser
      ensures var e := Enrol(steps, Verdicts(old(ser.inbox), |steps|));
              ser.written == old(ser.written) + e.sent &&
              ser.inbox == Drop(old(ser.inbox), 8 * |e.sent|) &&
              r == e.outcome
      decreases |steps|
    {
      ghost var inbox, log := ser.inbox, ser.written;
      ghost var verdicts := Verdicts(inbox, |steps|);
      if steps == [] {
        assert Drop(inbox, 0) == inbox;
        return Pass;
      }
      EnrolStep(steps, verdicts);
      ReplyFirst(inbox);
      r := Command(steps[0]);
      if r.Fail? {
        return;
      }
      VerdictsShift(inbox, |steps| - 1);
      r := RunSteps(steps[1..]);
      ghost var rest := Enrol(steps[1..], verdicts[1..]);
      AppendCons(log, steps[0].value, rest.sent);
      DropDrop(inbox, 8, 8 * |rest.sent|);
    }

    /** `add_fingerprint`: the add-1, add-2 and add-3 frames, each followed by the
        validation of its reply; the first failure ends the enrolment. */
    method AddFingerprint(u: UserId, d1: Draw, d2: Draw, d3: Draw) returns (r: Outcome<Fault>)
      modifies ser
      ensures var e := Enrol(EnrolSteps(u, d1, d2, d3), Verdicts(old(ser.inbox), 3));
              ser.written == old(ser.written) + e.sent &&
              ser.inbox == Drop(old(ser.inbox), 8 * |e.sent|) &&
              r == e.outcome
    {
      r := RunSteps(EnrolSteps(u, d1, d2, d3));
    }

    method DelUser(u: UserId, draw: Draw) returns (r: Outcome<Fault>)
      modifies ser
      ensures DelSpecifiedUser(u, draw).Err? ==>
                r == Fail(BadArgument(BadId)) && unchanged(ser)
      ensures DelSpecifiedUser(u, draw).Ok? ==>
                Sent(DelSpecifiedUser(u, draw).value, 8) && r == IsValid(Take(old(ser.inbox), 8))
    {
      r := Command(DelSpecifiedUser(u, draw));
    }

    method GetTotalUserCnt() returns (r: Result<nat, Fault>)
      modifies ser
      ensures Sent(GetTotalUsers(), 8)
      ensures r == UserCount(Take(old(ser.inbox), 8))
    {
      var res := Transact(GetTotalUsers());
      r := UserCount(res);
    }

    method CompareById(u: UserId, draw: Draw) returns (r: Outcome<Fault>)
      modifies ser
      ensures Fingerprint.CompareById(u, draw).Err? ==>
                r == Fail(BadArgument(BadId)) && unchanged(ser)
      ensures Fingerprint.CompareById(u, draw).Ok? ==>
                Sent(Fingerprint.CompareById(u, draw).value, 8) && r == IsValid(Take(old(ser.inbox), 8))
    {
      r := Command(Fingerprint.CompareById(u, draw));
    }

    /** `compare_fingerprint_get_id` sends the 9-byte `compare_many` request as written. */
    method CompareFingerprintGetId() returns (r: Result<seq<Byte>, Fault>)
      modifies ser
      ensures Sent(CompareManyAsWritten(), 8)
      ensures r == MatchedId(Take(old(ser.inbox), 8))
    {
      var res := Transact(CompareManyAsWritten());
      r := MatchedId(res);
    }

    /** `get_user_privilege`: the reply is not passed to `is_valid`. */
    method GetUserPrivilege(u: UserId, draw: Draw) returns (r: Result<Byte, Fault>)
      modifies ser
      ensures Fingerprint.GetUserPrivilege(u, draw).Err? ==>
                r == Err(BadArgument(BadId)) && unchanged(ser)
      ensures Fingerprint.GetUserPrivilege(u, draw).Ok? ==>
                Sent(Fingerprint.GetUserPrivilege(u, draw).value, 8) && r == Privilege(Take(old(ser.inbox), 8))
    {
      var frame := Fingerprint.GetUserPrivilege(u, draw);
      if frame.Err? {
        return Err(BadArgument(frame.error));
      }
      var res := Transact(frame.value);
      r := Privilege(res);
    }

    /** Read the body packet announced by an accepted header: `declared + 3` bytes. */
    method ReadBody(head: seq<Byte>) returns (packet: seq<Byte>)
      requires |head| >= 4
      modifies ser
      ensures packet == Take(old(ser.inbox), BodyLength(head))
      ensures ser.inbox == Drop(old(ser.inbox), BodyLength(head)) && ser.written == old(ser.written)
    {
      packet := ser.Read(DeclaredLength(head) + 3);
    }

    method GetDspModuleVersion() returns (r: Result<seq<Byte>, Fault>)
      modifies ser
      ensures ser.written == old(ser.written) + [GetDspVersion()]
      ensures var head, rest := Take(old(ser.inbox), 8), Drop(old(ser.inbox), 8);
              match IsValid(head)
              case Fail(f) => r == Err(f) && ser.inbox == rest
              case Pass => r == BodyData(Take(rest, BodyLength(head))) && ser.inbox == Drop(rest, BodyLength(head))
    {
      var head := Transact(GetDspVersion());
      var v := IsValid(head);
      if v.Fail? {
        return Err(v.error);
      }
      var packet := ReadBody(head);
      r := BodyData(packet);
    }

    /** `set_comparison_level` sends the 9-byte `set_comp_level` request as written. */
    method SetComparisonLevel(level: int) returns (r: Outcome<Fault>)
      modifies ser
      ensures !(0 <= level <= 9) ==>
                r == Fail(BadArgument(LevelOutOfRange)) && unchanged(ser)
      ensures 0 <= level <= 9 ==>
                Sent(SetCompLevelAsWritten(level).value, 8) && r == IsValid(Take(old(ser.inbox), 8))
    {
      r := Command(SetCompLevelAsWritten(level));
    }

    method GetComparisonLevel() returns (r: Result<Byte, Fault>)
      modifies ser
      ensures Sent(GetCompLevel(), 8)
      ensures r == HeaderValue(Take(old(ser.inbox), 8))
    {
      var res := Transact(GetCompLevel());
      r := HeaderValue(res);
    }

    /** `acquire_uploaded_imgs` sends the `acquire_upload_imgs` request as written, ending in 0. */
    method AcquireUploadedImgs() returns (r: Result<seq<Byte>, Fault>)
      modifies ser
      ensures ser.written == old(ser.written) + [AcquireUploadImgsAsWritten()]
      ensures var head, rest := Take(old(ser.inbox), 8), Drop(old(ser.inbox), 8);
              match IsValid(head)
              case Fail(f) => r == Err(f) && ser.inbox == rest
              case Pass => r == ImageData(Take(rest, BodyLength(head))) && ser.inbox == Drop(rest, BodyLength(head))
    {
      var head := Transact(AcquireUploadImgsAsWritten());
      var v := IsValid(head);
      if v.Fail? {
        return Err(v.error);
      }
      var packet := ReadBody(head);
      r := ImageData(packet);
    }

    method ExtractedUploadedEigenvalue() returns (r: Result<seq<Byte>, Fault>)
      modifies ser
      ensures ser.written == old(ser.written) + [UploadExtractEigenvalue()]
      ensures var head, rest := Take(old(ser.inbox), 8), Drop(old(ser.inbox), 8);
              match IsValid(head)
              case Fail(f) => r == Err(f) && ser.inbox == rest
              case Pass => r == EigenvalueData(Take(rest, BodyLength(head))) && ser.inbox == Drop(rest, BodyLength(head))
    {
      var head := Transact(UploadExtractEigenvalue());
      var v := IsValid(head);
      if v.Fail? {
        return Err(v.error);
      }
      var packet := ReadBody(head);
      r := EigenvalueData(packet);
    }

    /** `send_eigenval_and_comparison`: its builder always raises, so nothing is written. */
    method SendEigenvalAndComparison(template: seq<Byte>) returns (r: Outcome<Fault>)
      modifies ser
      ensures r == Fail(BadArgument(if |template| < 0x1_0000 then Unbuildable else TemplateTooLong))
      ensures unchanged(ser)
    {
      r := Fail(BadArgument(DownloadEigenvaluesCompFingerprint(template).error));
    }

    method SendEgvalAndComparisonById(u: UserId, draw: Draw, template: seq<Byte>) returns (r: Outcome<Fault>)
      modifies ser
      ensures DownloadEigenvaluesCompDbById(u, draw, template).Err? ==>
                r == Fail(BadArgument(DownloadEigenvaluesCompDbById(u, draw, template).error)) && unchanged(ser)
      ensures DownloadEigenvaluesCompDbById(u, draw, template).Ok? ==>
                Sent(DownloadEigenvaluesCompDbById(u, draw, template).value, 8) &&
                r == IsValid(Take(old(ser.inbox), 8))
    {
      r := Command(DownloadEigenvaluesCompDbById(u, draw, template));
    }

    method SendEgvalAndFindIdPrivilege(template: seq<Byte>) returns (r: Result<(seq<Byte>, Byte), Fault>)
      modifies ser
      ensures DownloadEigenvaluesCompDbMany(template).Err? ==>
                r == Err(BadArgument(DownloadEigenvaluesCompDbMany(template).error)) && unchanged(ser)
      ensures DownloadEigenvaluesCompDbMany(template).Ok? ==>
                Sent(DownloadEigenvaluesCompDbMany(template).value, 8) &&
                r == MatchedUser(Take(old(ser.inbox), 8))
    {
      var frame := DownloadEigenvaluesCompDbMany(template);
      if frame.Err? {
        return Err(BadArgument(frame.error));
      }
      var res := Transact(frame.value);
      r := MatchedUser(res);
    }

    /** `get_specifed_eigen_val_by_id`: header validated, then the body packet. */
    method GetSpecifiedEigenValById(u: UserId, draw: Draw) returns (r: Result<StoredTemplate, Fault>)
      modifies ser
      ensures UploadDspById(u, draw).Err? ==> r == Err(BadArgument(BadId)) && unchanged(ser)
      ensures UploadDspById(u, draw).Ok? ==>
              ser.written == old(ser.written) + [UploadDspById(u, draw).value] &&
              var head, rest := Take(old(ser.inbox), 8), Drop(old(ser.inbox), 8);
              match IsValid(head)
              case Fail(f) => r == Err(f) && ser.inbox == rest
              case Pass => r == TemplateRecord(Take(rest, BodyLength(head))) && ser.inbox == Drop(rest, BodyLength(head))
    {
      var frame := UploadDspById(u, draw);
      if frame.Err? {
        return Err(BadArgument(frame.error));
      }
      var head := Transact(frame.value);
      var v := IsValid(head);
      if v.Fail? {
        return Err(v.error);
      }
      var packet := ReadBody(head);
      r := TemplateRecord(packet);
    }

    method SendEigenvalAndSaveById(u: UserId, draw: Draw, template: seq<Byte>) returns (r: Outcome<Fault>)
      modifies ser
      ensures DownloadEigenvalueSaveById(u, draw, template, DEFAULT_PRIVILEGE).Err? ==>
                r == Fail(BadArgument(DownloadEigenvalueSaveById(u, draw, template, DEFAULT_PRIVILEGE).error)) &&
                unchanged(ser)
      ensures DownloadEigenvalueSaveById(u, draw, template, DEFAULT_PRIVILEGE).Ok? ==>
                Sent(DownloadEigenvalueSaveById(u, draw, template, DEFAULT_PRIVILEGE).value, 8) &&
                r == IsValid(Take(old(ser.inbox), 8))
    {
      r := Command(DownloadEigenvalueSaveById(u, draw, template, DEFAULT_PRIVILEGE));
    }

    /** `get_all_users`: the header declares the length of the packet that follows
        (read as is, without adding 3), then the records are collected. */
    method GetAllUsers() returns (r: Result<seq<User>, Fault>)
      modifies ser
      ensures ser.written == old(ser.written) + [AllUserIdPrivilege()]
      ensures var head, rest := Take(old(ser.inbox), 8), Drop(old(ser.inbox), 8);
              match IsValid(head)
              case Fail(f) => r == Err(f) && ser.inbox == rest
              case Pass => r == UserTable(Take(rest, DeclaredLength(head))) && ser.inbox == Drop(rest, DeclaredLength(head))
    {
      var head := Transact(AllUserIdPrivilege());
      var v := IsValid(head);
      if v.Fail? {
        return Err(v.error);
      }
      var packet := ser.Read(DeclaredLength(head));
      if |packet| == 0 {
        return Err(Truncated);
      }
      if !Marked(packet) {
        return Err(BadMarkers);
      }
      var num := BigEndian(PySlice(packet, 1, 3));
      var usersData := PySlice(packet, 3, -2);
      r := CollectUsers(usersData, num);
    }

    method SetTimeout(value: int) returns (r: Outcome<Fault>)
      modifies ser
      ensures Fingerprint.SetTimeout(value).Err? ==>
                r == Fail(BadArgument(TimeoutOutOfRange)) && unchanged(ser)
      ensures Fingerprint.SetTimeout(value).Ok? ==>
                Sent(Fingerprint.SetTimeout(value).value, 8) && r == IsValid(Take(old(ser.inbox), 8))
    {
      r := Command(Fingerprint.SetTimeout(value));
    }

    method GetTimeout() returns (r: Result<Byte, Fault>)
      modifies ser
      ensures Sent(Fingerprint.GetTimeout(), 8)
      ensures r == HeaderValue(Take(old(ser.inbox), 8))
    {
      var res := Transact(Fingerprint.GetTimeout());
      r := HeaderValue(res);
    }
  }
}
