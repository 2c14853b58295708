/** The command frames of the WaveShare UART fingerprint module (fingerprint.py):
    one builder per sensor operation, each laying out a fixed byte sequence that
    starts and ends with the marker 0xF5. */
module Fingerprint {
  import opened Wire

  // Acknowledgement codes the module puts in the status byte of a reply.
  const ACK_SUCCESS: Byte := 0x00
  const ACK_FAIL: Byte := 0x01
  const ACK_FULL: Byte := 0x04
  const ACK_NO_USER: Byte := 0x05
  const ACK_USER_EXIST: Byte := 0x06
  const ACK_FIN_EXIST: Byte := 0x07
  const ACK_TIMEOUT: Byte := 0x08
  const ACK_GO_OUT: Byte := 0x0F

  // Privilege tags.
  const ACK_ALL_USER: Byte := 0x00
  const ACK_GUEST_USER: Byte := 0x01
  const ACK_NORMAL_USER: Byte := 0x02
  const ACK_MASTER_USER: Byte := 0x03

  // Frame markers and opcodes.
  const CMD_HEAD: Byte := 0xF5
  const CMD_TAIL: Byte := 0xF5
  const CMD_ADD_1: Byte := 0x01
  const CMD_ADD_2: Byte := 0x02
  const CMD_ADD_3: Byte := 0x03
  const CMD_DEL: Byte := 0x04
  const CMD_DEL_ALL: Byte := 0x05
  const CMD_USER_CNT: Byte := 0x09
  const CMD_USER_PRI: Byte := 0x0A
  const CMD_COMP_ONE: Byte := 0x0B
  const CMD_COMP_MANY: Byte := 0x0C
  const CMD_UP_EXT: Byte := 0x23
  const CMD_ACQ_UP: Byte := 0x24
  const CMD_ACQ_VER: Byte := 0x26
  const CMD_COMP_LEV: Byte := 0x28
  const CMD_ALL_USR: Byte := 0x2B
  const CMD_LP_MODE: Byte := 0x2C
  const CMD_ADD_MODE: Byte := 0x2D
  const CMD_TIMEOUT: Byte := 0x2E
  const CMD_UP_EGV: Byte := 0x31
  const CMD_DOWN_SAVE: Byte := 0x41
  const CMD_DOWN_COMP: Byte := 0x42
  const CMD_DOWN_COMP_N: Byte := 0x43
  const CMD_DOWN_ACQ: Byte := 0x44

  /** The privilege the enrolment and save builders use when none is given. */
  const DEFAULT_PRIVILEGE := 1

  /** Why a builder raises instead of returning a frame. */
  datatype BuildError =
    | BadMode            // ValueError: the add-mode string is neither "set" nor "read"
    | BadId              // ValueError: `int()` of a one-character id that is not a digit,
                         // or `str()` of an int with more digits than Python allows
    | ByteOutOfRange     // ValueError: `bytes([...])` given a privilege outside 0..255
    | LevelOutOfRange    // ValueError: comparison level outside 0..9
    | TimeoutOutOfRange  // AttributeError: timeout value outside 0..255
    | TemplateTooLong    // OverflowError: template length does not fit in two bytes
    | TemplateTooShort   // IndexError: the check byte reads the template's second byte
    | Unbuildable        // TypeError: the builder's packet expression cannot be evaluated

  /** A user id as callers pass it: a Python int (turned into its decimal text)
      or the UTF-8 encoding of a string. */
  datatype UserId = Number(n: int) | Text(utf8: seq<Byte>)

  /** The pseudo-random value `int(random.random() * 4000)` drawn for an empty id. */
  type Draw = x: int | 0 <= x < 4000

  const ASCII_ZERO: Byte := 0x30
  const ASCII_MINUS: Byte := 0x2D

  predicate IsDigit(b: Byte) { ASCII_ZERO <= b <= ASCII_ZERO + 9 }

  /** The ASCII decimal digits of `n`, most significant first (`str(n)` for n >= 0). */
  function Digits(n: nat): (ds: seq<Byte>)
    ensures |ds| >= 1
    ensures forall i :: 0 <= i < |ds| ==> IsDigit(ds[i])
    decreases n
  {
    if n < 10 then [ASCII_ZERO + n] else Digits(n / 10) + [ASCII_ZERO + n % 10]
  }

  /** The most decimal digits CPython's `str()` converts an int to
      (`sys.int_info.default_max_str_digits`, Python 3.11 and later). */
  const STR_DIGITS_MAX: nat := 4300

  function Pow10(k: nat): (p: nat)
    ensures p >= 1
  {
    if k == 0 then 1 else 10 * Pow10(k - 1)
  }

  /** A number has at most `k` decimal digits exactly when it is below `10^k`. */
  lemma {:induction false} DigitsLength(n: nat, k: nat)
    requires k >= 1
    ensures |Digits(n)| <= k <==> n < Pow10(k)
    decreases n
  {
    if n >= 10 {
      if k == 1 {
        assert Pow10(1) == 10;
      } else {
        DigitsLength(n / 10, k - 1);
        assert n / 10 < Pow10(k - 1) <==> n < 10 * Pow10(k - 1);
      }
    } else {
      PowMonotone(1, k);
      assert Pow10(1) == 10;
    }
  }

  lemma {:induction false} PowMonotone(j: nat, k: nat)
    requires j <= k
    ensures Pow10(j) <= Pow10(k)
    decreases k
  {
    if j < k {
      PowMonotone(j, k - 1);
    }
  }

  /** The number a run of ASCII decimal digits spells, most significant first. */
  function DecimalValue(ds: seq<Byte>): nat
  {
    if ds == [] then 0
    else DecimalValue(ds[..|ds| - 1]) * 10 + (if IsDigit(ds[|ds| - 1]) then ds[|ds| - 1] - ASCII_ZERO else 0)
  }

  /** `Digits` is `str(n)`: its digits spell `n` back. */
  lemma {:induction false} DigitsSpell(n: nat)
    ensures DecimalValue(Digits(n)) == n
    decreases n
  {
    var ds := Digits(n);
    if n < 10 {
      assert ds[..0] == [];
    } else {
      DigitsSpell(n / 10);
      assert ds[..|ds| - 1] == Digits(n / 10);
    }
  }

  /** The bytes `id_to_byte` looks at: `str(user_id).encode()`. */
  function Encoded(u: UserId): seq<Byte>
  {
    match u
    case Number(n) => if n < 0 then [ASCII_MINUS] + Digits(-n) else Digits(n)
    case Text(bs) => bs
  }

  /** `str(user_id)` raises: an int with more than STR_DIGITS_MAX digits. */
  predicate StrRefused(u: UserId)
  {
    u.Number? && |Digits(if u.n < 0 then -u.n else u.n)| > STR_DIGITS_MAX
  }

  /** `id_to_byte`: the two id bytes every id-addressed frame carries. */
  function IdToByte(u: UserId, draw: Draw): (r: Result<(Byte, Byte), BuildError>)
    // an int too long for `str()` raises before anything else
    ensures StrRefused(u) ==> r == Err(BadId)
    // an empty id becomes the big-endian form of a value below 4000
    ensures Encoded(u) == [] ==>
              r.Ok? && r.value.0 * 256 + r.value.1 == draw && r.value.0 <= 15
    // a one-character id must be a digit and becomes (0, its value)
    ensures |Encoded(u)| == 1 ==>
              (r.Ok? <==> IsDigit(Encoded(u)[0])) &&
              (r.Ok? ==> r.value.0 == 0 && r.value.1 + ASCII_ZERO == Encoded(u)[0])
    // a longer id that `str()` accepts is cut to its first two bytes
    ensures |Encoded(u)| >= 2 && !StrRefused(u) ==> r == Ok((Encoded(u)[0], Encoded(u)[1]))
  {
    var uid := Encoded(u);
    if StrRefused(u) then
      Err(BadId)
    else if |uid| == 0 then
      Ok((draw / 256, draw % 256))
    else if |uid| == 1 then
      if IsDigit(uid[0]) then Ok((0, uid[0] - ASCII_ZERO)) else Err(BadId)
    else
      Ok((uid[0], uid[1]))
  }

  /** The leading decimal digit of a positive number is never '0'. */
  lemma {:induction false} DigitsLead(n: nat)
    requires n >= 1
    ensures Digits(n)[0] != ASCII_ZERO
    ensures n >= 10 ==> |Digits(n)| >= 2
  {
    if n >= 10 {
      DigitsLead(n / 10);
      assert Digits(n)[0] == Digits(n / 10)[0];
    }
  }

  /** Numeric ids: 0..9 give (0, n), 10..99 give their two ASCII digits, any
      larger id below `10^4300` gives its two leading ASCII digits, the first of
      them not '0', and from `10^4300` on `str()` raises. */
  lemma NumericId(n: nat, draw: Draw)
    ensures n < 10 ==> IdToByte(Number(n), draw) == Ok((0, n as Byte))
    ensures 10 <= n < 100 ==>
              IdToByte(Number(n), draw) == Ok((ASCII_ZERO + n / 10, ASCII_ZERO + n % 10))
    ensures 10 <= n < Pow10(STR_DIGITS_MAX) ==>
              IdToByte(Number(n), draw).Ok? &&
              IsDigit(IdToByte(Number(n), draw).value.0) &&
              IsDigit(IdToByte(Number(n), draw).value.1) &&
              IdToByte(Number(n), draw).value.0 != ASCII_ZERO
    ensures n >= Pow10(STR_DIGITS_MAX) ==> IdToByte(Number(n), draw) == Err(BadId)
  {
    DigitsLength(n, STR_DIGITS_MAX);
    if n >= 10 {
      DigitsLead(n);
      if n < 100 {
        assert Digits(n) == [ASCII_ZERO + n / 10, ASCII_ZERO + n % 10];
      }
    }
  }

  /** The layout every 8-byte command frame shares: marker 0xF5 at both ends, the
      opcode at index 1, a zero at index 5, and at index 6 the check byte
      `opcode ^ 0`, which is the opcode itself whatever the parameter bytes are. */
  predicate IsCommandFrame(f: seq<Byte>, op: Byte)
  {
    |f| == 8 && f[0] == CMD_HEAD && f[7] == CMD_TAIL && f[1] == op && f[5] == 0 && f[6] == op
  }

  /** The frame `bytes([CMD_HEAD, op, a, b, c, 0, op ^ 0, CMD_TAIL])`. */
  function Frame(op: Byte, a: Byte, b: Byte, c: Byte): (f: seq<Byte>)
    ensures IsCommandFrame(f, op) && f[2] == a && f[3] == b && f[4] == c
  {
    XorZero(op);
    [CMD_HEAD, op, a, b, c, 0, Xor(op, 0), CMD_TAIL]
  }

  /** The id bytes of `u` sit at indices 2 and 3 of `f`. */
  predicate CarriesId(f: seq<Byte>, u: UserId, draw: Draw)
    requires |f| == 8
  {
    IdToByte(u, draw).Ok? && f[2] == IdToByte(u, draw).value.0 && f[3] == IdToByte(u, draw).value.1
  }

  /** A frame addressed to a user: the id is converted first, then `bytes([...])`
      rejects a fourth parameter outside 0..255. */
  function IdFrame(op: Byte, u: UserId, draw: Draw, p: int): (r: Result<seq<Byte>, BuildError>)
    ensures r.Ok? <==> IdToByte(u, draw).Ok? && 0 <= p < 256
    ensures IdToByte(u, draw).Err? ==> r == Err(BadId)
    ensures IdToByte(u, draw).Ok? && !(0 <= p < 256) ==> r == Err(ByteOutOfRange)
    ensures r.Ok? ==> IsCommandFrame(r.value, op) && CarriesId(r.value, u, draw) && r.value[4] == p
  {
    match IdToByte(u, draw)
    case Err(e) => Err(e)
    case Ok((hi, lo)) => if 0 <= p < 256 then Ok(Frame(op, hi, lo, p)) else Err(ByteOutOfRange)
  }

  // ---------------------------------------------------------------------------
  // Fixed frames

  function SetDormantState(): (f: seq<Byte>)
    ensures IsCommandFrame(f, CMD_LP_MODE) && f[2..5] == [0, 0, 0]
  {
    Frame(CMD_LP_MODE, 0, 0, 0)
  }

  function DelAllUsers(): (f: seq<Byte>)
    ensures IsCommandFrame(f, CMD_DEL_ALL) && f[2..5] == [0, 0, 0]
  {
    Frame(CMD_DEL_ALL, 0, 0, 0)
  }

  function GetTotalUsers(): (f: seq<Byte>)
    ensures IsCommandFrame(f, CMD_USER_CNT) && f[2..5] == [0, 0, 0]
  {
    Frame(CMD_USER_CNT, 0, 0, 0)
  }

  function GetDspVersion(): (f: seq<Byte>)
    ensures IsCommandFrame(f, CMD_ACQ_VER) && f[2..5] == [0, 0, 0]
  {
    Frame(CMD_ACQ_VER, 0, 0, 0)
  }

  /** Query of the comparison level: 1 at index 4 selects "read". */
  function GetCompLevel(): (f: seq<Byte>)
    ensures IsCommandFrame(f, CMD_COMP_LEV) && f[2..5] == [0, 0, 1]
  {
    Frame(CMD_COMP_LEV, 0, 0, 1)
  }

  function UploadExtractEigenvalue(): (f: seq<Byte>)
    ensures IsCommandFrame(f, CMD_UP_EXT) && f[2..5] == [0, 0, 0]
  {
    Frame(CMD_UP_EXT, 0, 0, 0)
  }

  function AllUserIdPrivilege(): (f: seq<Byte>)
    ensures IsCommandFrame(f, CMD_ALL_USR) && f[2..5] == [0, 0, 0]
  {
    Frame(CMD_ALL_USR, 0, 0, 0)
  }

  /** The timeout query is cut short: four bytes, no check byte and no tail. */
  function GetTimeout(): (f: seq<Byte>)
    ensures |f| == 4 && f[0] == CMD_HEAD && f[1] == CMD_TIMEOUT && f[2] == 0 && f[3] == 1
    ensures !IsCommandFrame(f, CMD_TIMEOUT)
  {
    [CMD_HEAD, CMD_TIMEOUT, 0, 1]
  }

  // ---------------------------------------------------------------------------
  // Frames with parameters

  /** The add-mode frame: index 3 holds 1 when repeats are prohibited and 0 when
      allowed; index 4 holds 0 for "set" and 1 for "read"; any other mode raises. */
  function FingerprintMode(mode: string, repeat: bool): (r: Result<seq<Byte>, BuildError>)
    ensures r.Ok? <==> mode == "set" || mode == "read"
    ensures r.Err? ==> r.error == BadMode
    ensures r.Ok? ==>
              IsCommandFrame(r.value, CMD_ADD_MODE) && r.value[2] == 0 &&
              (r.value[3] == 1 <==> !repeat) && (r.value[3] == 0 <==> repeat) &&
              (r.value[4] == 0 <==> mode == "set") && (r.value[4] == 1 <==> mode == "read")
  {
    var repeatByte: Byte := if repeat then 0 else 1;
    if mode == "set" then Ok(Frame(CMD_ADD_MODE, 0, repeatByte, 0))
    else if mode == "read" then Ok(Frame(CMD_ADD_MODE, 0, repeatByte, 1))
    else Err(BadMode)
  }

  function AddFingerprintFirst(u: UserId, draw: Draw, privilege: int): (r: Result<seq<Byte>, BuildError>)
    ensures r.Ok? <==> IdToByte(u, draw).Ok? && 0 <= privilege < 256
    ensures r.Ok? ==> IsCommandFrame(r.value, CMD_ADD_1) && CarriesId(r.value, u, draw) && r.value[4] == privilege
  {
    IdFrame(CMD_ADD_1, u, draw, privilege)
  }

  function AddFingerprintSecond(u: UserId, draw: Draw, privilege: int): (r: Result<seq<Byte>, BuildError>)
    ensures r.Ok? <==> IdToByte(u, draw).Ok? && 0 <= privilege < 256
    ensures r.Ok? ==> IsCommandFrame(r.value, CMD_ADD_2) && CarriesId(r.value, u, draw) && r.value[4] == privilege
  {
    IdFrame(CMD_ADD_2, u, draw, privilege)
  }

  function AddFingerprintThird(u: UserId, draw: Draw, privilege: int): (r: Result<seq<Byte>, BuildError>)
    ensures r.Ok? <==> IdToByte(u, draw).Ok? && 0 <= privilege < 256
    ensures r.Ok? ==> IsCommandFrame(r.value, CMD_ADD_3) && CarriesId(r.value, u, draw) && r.value[4] == privilege
  {
    IdFrame(CMD_ADD_3, u, draw, privilege)
  }

  /** The three enrolment frames for one id and privilege agree everywhere except
      in the opcode (index 1) and the check byte (index 6). */
  lemma AddFramesDifferOnlyInOpcode(u: UserId, draw: Draw, privilege: int)
    ensures AddFingerprintFirst(u, draw, privilege).Ok? <==> AddFingerprintSecond(u, draw, privilege).Ok?
    ensures AddFingerprintFirst(u, draw, privilege).Ok? <==> AddFingerprintThird(u, draw, privilege).Ok?
    ensures AddFingerprintFirst(u, draw, privilege).Ok? ==>
              var f1, f2, f3 := AddFingerprintFirst(u, draw, privilege).value,
                                AddFingerprintSecond(u, draw, privilege).value,
                                AddFingerprintThird(u, draw, privilege).value;
              (forall i :: 0 <= i < 8 && i != 1 && i != 6 ==> f1[i] == f2[i] == f3[i]) &&
              f1[1] == f1[6] == 1 && f2[1] == f2[6] == 2 && f3[1] == f3[6] == 3
  {
  }

  function DelSpecifiedUser(u: UserId, draw: Draw): (r: Result<seq<Byte>, BuildError>)
    ensures r.Ok? <==> IdToByte(u, draw).Ok?
    ensures r.Ok? ==> IsCommandFrame(r.value, CMD_DEL) && CarriesId(r.value, u, draw) && r.value[4] == 0
  {
    IdFrame(CMD_DEL, u, draw, 0)
  }

  function CompareById(u: UserId, draw: Draw): (r: Result<seq<Byte>, BuildError>)
    ensures r.Ok? <==> IdToByte(u, draw).Ok?
    ensures r.Ok? ==> IsCommandFrame(r.value, CMD_COMP_ONE) && CarriesId(r.value, u, draw) && r.value[4] == 0
  {
    IdFrame(CMD_COMP_ONE, u, draw, 0)
  }

  function GetUserPrivilege(u: UserId, draw: Draw): (r: Result<seq<Byte>, BuildError>)
    ensures r.Ok? <==> IdToByte(u, draw).Ok?
    ensures r.Ok? ==> IsCommandFrame(r.value, CMD_USER_PRI) && CarriesId(r.value, u, draw) && r.value[4] == 0
  {
    IdFrame(CMD_USER_PRI, u, draw, 0)
  }

  function UploadDspById(u: UserId, draw: Draw): (r: Result<seq<Byte>, BuildError>)
    ensures r.Ok? <==> IdToByte(u, draw).Ok?
    ensures r.Ok? ==> IsCommandFrame(r.value, CMD_UP_EGV) && CarriesId(r.value, u, draw) && r.value[4] == 0
  {
    IdFrame(CMD_UP_EGV, u, draw, 0)
  }

  /** Setting the acquisition timeout: values outside 0..255 raise, others sit at index 3. */
  function SetTimeout(value: int): (r: Result<seq<Byte>, BuildError>)
    ensures r.Ok? <==> 0 <= value <= 255
    ensures r.Err? ==> r.error == TimeoutOutOfRange
    ensures r.Ok? ==> IsCommandFrame(r.value, CMD_TIMEOUT) && r.value[2..5] == [0, value, 0]
  {
    if value < 0 || 255 < value then Err(TimeoutOutOfRange)
    else Ok(Frame(CMD_TIMEOUT, 0, value, 0))
  }

  // ---------------------------------------------------------------------------
  // Template downloads: an 8-byte header carrying the template length, then a packet

  /** The packet after a download header: marker, three id/privilege bytes, the
      template unchanged, one check byte, marker. */
  function TemplatePacket(a: Byte, b: Byte, c: Byte, template: seq<Byte>, check: Byte): (p: seq<Byte>)
    ensures |p| == |template| + 6
    ensures p[0] == CMD_HEAD && p[1] == a && p[2] == b && p[3] == c && p[|p| - 1] == CMD_TAIL
    ensures p[4..|p| - 2] == template && p[|p| - 2] == check
  {
    [CMD_HEAD, a, b, c] + template + [check, CMD_TAIL]
  }

  /** The header of a download command: `len(template).to_bytes(2, 'big')` at indices 2-3. */
  function LengthHeader(op: Byte, template: seq<Byte>): (r: Result<seq<Byte>, BuildError>)
    ensures r.Ok? <==> |template| < 0x1_0000
    ensures r.Err? ==> r.error == TemplateTooLong
    ensures r.Ok? ==> IsCommandFrame(r.value, op) && r.value[4] == 0 &&
                      BigEndian(r.value[2..4]) == |template|
  {
    match ToBytes2(|template|)
    case None => Err(TemplateTooLong)
    case Some(len) =>
      var f := Frame(op, len[0], len[1], 0);
      assert f[2..4] == len;
      Ok(f)
  }

  /** What an extended download builder must produce: a header for `op` whose
      bytes 2-3 are the big-endian template length, then `TemplatePacket` with the
      given id/privilege bytes, the template and the check byte `k ^ template[1]`. */
  predicate IsDownload(bs: seq<Byte>, op: Byte, a: Byte, b: Byte, c: Byte, k: Byte, template: seq<Byte>)
  {
    |template| >= 2 && |bs| == |template| + 14 &&
    IsCommandFrame(bs[..8], op) && bs[4] == 0 && BigEndian(bs[2..4]) == |template| &&
    bs[8..] == TemplatePacket(a, b, c, template, Xor(k, template[1]))
  }

  /** `download_eigenvalues_comp_fingerprint`: the header is built, but the packet
      expression subscripts the `bytes` type itself and adds an int to bytes, so the
      builder always raises (after the length check). */
  function DownloadEigenvaluesCompFingerprint(template: seq<Byte>): (r: Result<seq<Byte>, BuildError>)
    ensures r.Err?
    ensures r.error == (if |template| < 0x1_0000 then Unbuildable else TemplateTooLong)
  {
    match LengthHeader(CMD_DOWN_ACQ, template)
    case Err(e) => Err(e)
    case Ok(_) => Err(Unbuildable)
  }

  function DownloadEigenvaluesCompDbById(u: UserId, draw: Draw, template: seq<Byte>): (r: Result<seq<Byte>, BuildError>)
    ensures r.Ok? <==> IdToByte(u, draw).Ok? && 2 <= |template| < 0x1_0000
    ensures IdToByte(u, draw).Err? ==> r == Err(BadId)
    ensures IdToByte(u, draw).Ok? && |template| >= 0x1_0000 ==> r == Err(TemplateTooLong)
    ensures IdToByte(u, draw).Ok? && |template| < 2 ==> r == Err(TemplateTooShort)
    ensures r.Ok? ==>
              var (hi, lo) := IdToByte(u, draw).value;
              IsDownload(r.value, CMD_DOWN_COMP, hi, lo, 0, hi, template)
  {
    match IdToByte(u, draw)
    case Err(e) => Err(e)
    case Ok((hi, lo)) =>
      match LengthHeader(CMD_DOWN_COMP, template)
      case Err(e) => Err(e)
      case Ok(header) =>
        if |template| < 2 then Err(TemplateTooShort)
        else
          var bs := header + TemplatePacket(hi, lo, 0, template, Xor(hi, template[1]));
          assert bs[..8] == header && bs[2..4] == header[2..4] && bs[8..] == TemplatePacket(hi, lo, 0, template, Xor(hi, template[1]));
          Ok(bs)
  }

  function DownloadEigenvaluesCompDbMany(template: seq<Byte>): (r: Result<seq<Byte>, BuildError>)
    ensures r.Ok? <==> 2 <= |template| < 0x1_0000
    ensures |template| >= 0x1_0000 ==> r == Err(TemplateTooLong)
    ensures |template| < 2 ==> r == Err(TemplateTooShort)
    ensures r.Ok? ==> IsDownload(r.value, CMD_DOWN_COMP_N, 0, 0, 0, 0, template)
  {
    match LengthHeader(CMD_DOWN_COMP_N, template)
    case Err(e) => Err(e)
    case Ok(header) =>
      if |template| < 2 then Err(TemplateTooShort)
      else
        var bs := header + TemplatePacket(0, 0, 0, template, Xor(0, template[1]));
        assert bs[..8] == header && bs[2..4] == header[2..4] && bs[8..] == TemplatePacket(0, 0, 0, template, Xor(0, template[1]));
        Ok(bs)
  }

  function DownloadEigenvalueSaveById(u: UserId, draw: Draw, template: seq<Byte>, privilege: int): (r: Result<seq<Byte>, BuildError>)
    ensures r.Ok? <==> IdToByte(u, draw).Ok? && 2 <= |template| < 0x1_0000 && 0 <= privilege < 256
    ensures IdToByte(u, draw).Err? ==> r == Err(BadId)
    ensures IdToByte(u, draw).Ok? && |template| >= 0x1_0000 ==> r == Err(TemplateTooLong)
    ensures IdToByte(u, draw).Ok? && |template| < 0x1_0000 && !(0 <= privilege < 256) ==> r == Err(ByteOutOfRange)
    ensures IdToByte(u, draw).Ok? && 0 <= privilege < 256 && |template| < 2 ==> r == Err(TemplateTooShort)
    ensures r.Ok? ==>
              var (hi, lo) := IdToByte(u, draw).value;
              IsDownload(r.value, CMD_DOWN_SAVE, hi, lo, privilege, hi, template)
  {
    match IdToByte(u, draw)
    case Err(e) => Err(e)
    case Ok((hi, lo)) =>
      match LengthHeader(CMD_DOWN_SAVE, template)
      case Err(e) => Err(e)
      case Ok(header) =>
        if !(0 <= privilege < 256) then Err(ByteOutOfRange)
        else if |template| < 2 then Err(TemplateTooShort)
        else
          var bs := header + TemplatePacket(hi, lo, privilege, template, Xor(hi, template[1]));
          assert bs[..8] == header && bs[2..4] == header[2..4] && bs[8..] == TemplatePacket(hi, lo, privilege, template, Xor(hi, template[1]));
          Ok(bs)
  }

  // ---------------------------------------------------------------------------
  // Frames whose layout as written departs from the 8-byte law, each beside the
  // layout the rest of the module evidently intends.

  /** `acquire_upload_imgs` as written: its last byte is 0, not the tail marker. */
  function AcquireUploadImgsAsWritten(): (f: seq<Byte>)
    ensures |f| == 8 && f[0] == CMD_HEAD && f[1] == f[6] == CMD_ACQ_UP && f[7] == 0
  {
    [CMD_HEAD, CMD_ACQ_UP, 0, 0, 0, 0, Xor(CMD_ACQ_UP, 0), 0]
  }

  /** `acquire_upload_imgs` with the tail marker in place. */
  function AcquireUploadImgs(): (f: seq<Byte>)
    ensures IsCommandFrame(f, CMD_ACQ_UP) && f[2..5] == [0, 0, 0]
    ensures f[..7] == AcquireUploadImgsAsWritten()[..7]
  {
    Frame(CMD_ACQ_UP, 0, 0, 0)
  }

  /** `compare_many` as written: nine bytes, an extra 0 before the check byte. */
  function CompareManyAsWritten(): (f: seq<Byte>)
    ensures |f| == 9 && f[0] == CMD_HEAD && f[1] == f[7] == CMD_COMP_MANY && f[8] == CMD_TAIL
    ensures f[2..7] == [0, 0, 0, 0, 0]
  {
    [CMD_HEAD, CMD_COMP_MANY, 0, 0, 0, 0, 0, Xor(CMD_COMP_MANY, 0), CMD_TAIL]
  }

  /** `compare_many` laid out as the 8-byte frame of every other query. */
  function CompareMany(): (f: seq<Byte>)
    ensures IsCommandFrame(f, CMD_COMP_MANY) && f[2..5] == [0, 0, 0]
    ensures f == CompareManyAsWritten()[..6] + CompareManyAsWritten()[7..]
  {
    Frame(CMD_COMP_MANY, 0, 0, 0)
  }

  /** `set_comp_level` as written: nine bytes, with the level at index 3. */
  function SetCompLevelAsWritten(level: int): (r: Result<seq<Byte>, BuildError>)
    ensures r.Ok? <==> 0 <= level <= 9
    ensures r.Err? ==> r.error == LevelOutOfRange
    ensures r.Ok? ==>
              |r.value| == 9 && r.value[0] == CMD_HEAD && r.value[8] == CMD_TAIL &&
              r.value[1] == r.value[7] == CMD_COMP_LEV && r.value[3] == level &&
              r.value[2] == r.value[4] == r.value[5] == r.value[6] == 0
  {
    if 0 > level || 9 < level then Err(LevelOutOfRange)
    else Ok([CMD_HEAD, CMD_COMP_LEV, 0, level, 0, 0, 0, Xor(CMD_COMP_LEV, 0), CMD_TAIL])
  }

  /** `set_comp_level` as an 8-byte frame: levels outside 0..9 raise, others sit at
      index 3, and index 4 holds 0 ("set", where the level query puts 1). */
  function SetCompLevel(level: int): (r: Result<seq<Byte>, BuildError>)
    ensures r.Ok? <==> 0 <= level <= 9
    ensures r.Err? ==> r.error == LevelOutOfRange
    ensures r.Ok? ==>
              IsCommandFrame(r.value, CMD_COMP_LEV) && r.value[2..5] == [0, level, 0] &&
              r.value == SetCompLevelAsWritten(level).value[..6] + SetCompLevelAsWritten(level).value[7..]
  {
    if 0 > level || 9 < level then Err(LevelOutOfRange)
    else Ok(Frame(CMD_COMP_LEV, 0, level, 0))
  }

  /** The two nine-byte frames as written are not frames: the module reads eight
      bytes and finds the opcode where the tail marker belongs, and a stray 0xF5
      is left over to be taken as the start of the next command. */
  lemma NineByteFramesMisread(level: int)
    requires 0 <= level <= 9
    ensures !IsCommandFrame(CompareManyAsWritten()[..8], CMD_COMP_MANY)
    ensures CompareManyAsWritten()[..8][7] == CMD_COMP_MANY != CMD_TAIL
    ensures !IsCommandFrame(SetCompLevelAsWritten(level).value[..8], CMD_COMP_LEV)
    ensures SetCompLevelAsWritten(level).value[..8][7] == CMD_COMP_LEV != CMD_TAIL
    ensures CompareManyAsWritten()[8] == SetCompLevelAsWritten(level).value[8] == CMD_HEAD
  {
  }

  /** The image-upload request as written does not end in the tail marker. */
  lemma AcquireUploadImgsMissingTail()
    ensures !IsCommandFrame(AcquireUploadImgsAsWritten(), CMD_ACQ_UP)
    ensures AcquireUploadImgsAsWritten()[7] != CMD_TAIL
  {
  }

  /** The module's own self-test vectors: each expected frame equals the builder's output. */
  lemma SelfTestVectors()
    ensures SetDormantState() == [0xF5, 0x2C, 0, 0, 0, 0, 0x2C, 0xF5]
    ensures FingerprintMode("set", true) == Ok([0xF5, 0x2D, 0, 0, 0, 0, 0x2D, 0xF5])
    ensures FingerprintMode("set", false) == Ok([0xF5, 0x2D, 0, 0x01, 0, 0, 0x2D, 0xF5])
    ensures FingerprintMode("read", true) == Ok([0xF5, 0x2D, 0, 0, 0x01, 0, 0x2D, 0xF5])
    ensures forall d: Draw :: AddFingerprintFirst(Text([ASCII_ZERO]), d, DEFAULT_PRIVILEGE) == Ok([0xF5, 0x01, 0, 0, 0x01, 0, 0x01, 0xF5])
    ensures forall d: Draw :: AddFingerprintSecond(Text([ASCII_ZERO]), d, DEFAULT_PRIVILEGE) == Ok([0xF5, 0x02, 0, 0, 0x01, 0, 0x02, 0xF5])
    ensures forall d: Draw :: AddFingerprintThird(Text([ASCII_ZERO]), d, DEFAULT_PRIVILEGE) == Ok([0xF5, 0x03, 0, 0, 0x01, 0, 0x03, 0xF5])
    ensures forall d: Draw :: DelSpecifiedUser(Text([ASCII_ZERO]), d) == Ok([0xF5, 0x04, 0, 0, 0, 0, 0x04, 0xF5])
    ensures DelAllUsers() == [0xF5, 0x05, 0, 0, 0, 0, 0x05, 0xF5]
    ensures forall d: Draw :: CompareById(Text([ASCII_ZERO]), d) == Ok([0xF5, 0x0B, 0, 0, 0, 0, 0x0B, 0xF5])
  {
  }
}
