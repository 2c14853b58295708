# WaveShare UART fingerprint driver, modelled in Dafny

This project models the Python driver for the WaveShare UART fingerprint module.
The module speaks a fixed binary protocol. The module expects every command as
an 8-byte frame that starts and ends with the marker `0xF5`, and every reply
starts with an 8-byte header of the same shape. Some replies are followed by a
body packet. The driver departs from that layout in four requests:
`get_timeout` is 4 bytes, `compare_many` and `set_comp_level` are 9 bytes, and
`acquire_upload_imgs` ends in 0 (see "## Findings").

The model has four modules:

- `Wire` (`wire.dfy`) holds bytes and the few Python built-ins the driver relies
  on: `x ^ 0`, slicing with negative and out-of-range bounds, `int.from_bytes`,
  `n.to_bytes(2, 'big')`, and a serial read that returns fewer bytes once the
  stream runs dry.
- `Fingerprint` (`fingerprint.dfy`) holds every
  command-frame builder of `fingerprint.py`, `id_to_byte`, and the module's own
  self-test vectors. Builders that raise return a `Result` whose error names the
  Python exception's cause.
- `Responses` (`responses.dfy`) is the pure half of `fpController.py`: `is_valid`
  and the functions that slice values out of reply headers and body packets. It
  also proves round-trips against the builders.
- `Controller` (`controller.dfy`) is the stateful half. `SerialPort` is an
  abstract channel: a log of the frames written and the stream of bytes the module
  has sent and no read has consumed. `FpController` keeps a reference to it, and
  each of its methods states exactly which frames it writes, how many bytes it
  consumes and what it returns. The three-step enrolment is specified by the
  function `Enrol`, and the lemmas beside it prove that a run stops at the first
  rejected step. The user-table loop of `get_all_users` is the method
  `CollectUsers`, proved against the function `UserRecords`.

Where the protocol as commonly described and the driver's code disagree, the
model follows the code:

- The "checksum" byte of a command frame is `opcode ^ 0`, which is the opcode
  itself. It is not an XOR over the interior bytes.
- A comparison level outside 0..9 raises `ValueError`. It is not clamped to the
  default level.
- Reply checksums are never checked, and neither is the echoed opcode
  (`Responses.ReplyCheckByteIgnored`).
- No status byte is reinterpreted by command. `is_valid` treats status 1 as
  `ACK_FAIL` even in replies where 1 is a privilege tier
  (`Responses.StatusByteOverload`).
- No input is flushed before a command is sent. A short read leaves the stream
  as it is, and the next command reads what follows.

## Model

| member | source | states |
|---|---|---|
| Wire.XorZero | fingerprint.py:59 | `op ^ 0` is `op` for every byte, so the check byte of a command equals its opcode |
| Wire.PySlice | fpController.py:177 | Python slicing never raises and is no longer than its input; with negative bounds counted from the end and bounds clamped to the length, it is the slice between the normalised bounds when they do not cross and empty when they do |
| Wire.ToBytes2 | fingerprint.py:190 | `to_bytes(2, 'big')` succeeds exactly below 65536 and yields two bytes whose big-endian value is the input |
| Wire.BigEndianPair | fpController.py:106 | `int.from_bytes` of two bytes is `hi * 256 + lo`, always below 65536 |
| Fingerprint.Digits | fingerprint.py:90-91 | the decimal text of a natural number has at least one character, and every character is an ASCII digit |
| Fingerprint.IdToByte | fingerprint.py:89-102 | an int of more than 4300 digits raises `ValueError` in `str()` (Python 3.11 and later); otherwise an empty id gives the big-endian form of the draw, with high byte at most 15; a one-character id succeeds exactly when it is a digit and then gives (0, its value); a longer id gives its first two bytes |
| Fingerprint.DigitsLength | fingerprint.py:90-91 | the decimal text of `n` has at most `k` digits exactly when `n < 10^k`, so `str()` refuses exactly the ints from `10^4300` on |
| Fingerprint.DigitsSpell | fingerprint.py:90-91 | the decimal text of `n` spells `n` back: its digit value is `n` |
| Fingerprint.DigitsLead | fingerprint.py:90-91 | the decimal text of a positive number never starts with '0' and has two or more characters from 10 on |
| Fingerprint.NumericId | fingerprint.py:89-102 | ids 0..9 give (0, n); ids 10..99 give their two ASCII digits; every id from 10 up to `10^4300` gives two ASCII digits, the first not '0'; from `10^4300` on the id raises `ValueError` |
| Fingerprint.Frame | fingerprint.py:59-60 | a built frame is 8 bytes with 0xF5 at both ends, the opcode at index 1 and again at index 6, a zero at index 5 and the parameters at indices 2-4 |
| Fingerprint.IdFrame | fingerprint.py:105-109 | an id-addressed frame succeeds exactly when the id converts and the fourth byte is in 0..255; a bad id is reported before a bad byte; on success it carries the id bytes at indices 2-3 |
| Fingerprint.SetDormantState | fingerprint.py:54-60 | an 8-byte frame for opcode 0x2C with zero parameters |
| Fingerprint.DelAllUsers | fingerprint.py:133-135 | an 8-byte frame for opcode 0x05 with zero parameters |
| Fingerprint.GetTotalUsers | fingerprint.py:138-140 | an 8-byte frame for opcode 0x09 with zero parameters |
| Fingerprint.GetDspVersion | fingerprint.py:162-164 | an 8-byte frame for opcode 0x26 with zero parameters |
| Fingerprint.GetCompLevel | fingerprint.py:174-176 | an 8-byte frame for opcode 0x28 with 1 ("read") at index 4 |
| Fingerprint.UploadExtractEigenvalue | fingerprint.py:184-186 | an 8-byte frame for opcode 0x23 with zero parameters |
| Fingerprint.AllUserIdPrivilege | fingerprint.py:236-238 | an 8-byte frame for opcode 0x2B with zero parameters |
| Fingerprint.GetTimeout | fingerprint.py:254-255 | only 4 bytes: marker, opcode 0x2E, 0 at index 2 and 1 at index 3, so it is not a command frame |
| Fingerprint.FingerprintMode | fingerprint.py:63-86 | succeeds exactly for "set" and "read" and raises otherwise; index 3 is 1 exactly when repeats are prohibited and 0 exactly when allowed; index 4 is 0 exactly for "set" and 1 exactly for "read" |
| Fingerprint.AddFingerprintFirst | fingerprint.py:105-109 | succeeds exactly when the id converts and the privilege is a byte; the frame has opcode 0x01, the id bytes and the privilege at index 4 |
| Fingerprint.AddFingerprintSecond | fingerprint.py:112-116 | the same for opcode 0x02 |
| Fingerprint.AddFingerprintThird | fingerprint.py:119-123 | the same for opcode 0x03 |
| Fingerprint.AddFramesDifferOnlyInOpcode | fingerprint.py:105-123 | for one id and privilege the three enrolment frames succeed together and agree at every index except 1 and 6, which hold 1, 2 and 3 |
| Fingerprint.DelSpecifiedUser | fingerprint.py:126-130 | succeeds exactly when the id converts; opcode 0x04 with the id bytes |
| Fingerprint.CompareById | fingerprint.py:143-147 | succeeds exactly when the id converts; opcode 0x0B with the id bytes |
| Fingerprint.GetUserPrivilege | fingerprint.py:155-159 | succeeds exactly when the id converts; opcode 0x0A with the id bytes |
| Fingerprint.UploadDspById | fingerprint.py:218-221 | succeeds exactly when the id converts; opcode 0x31 with the id bytes |
| Fingerprint.SetTimeout | fingerprint.py:241-251 | succeeds exactly for 0..255 and raises otherwise; the value sits at index 3 |
| Fingerprint.TemplatePacket | fingerprint.py:203 | the packet is the template plus 6 bytes: marker, three id/privilege bytes, the template unchanged, the check byte and a marker |
| Fingerprint.LengthHeader | fingerprint.py:199-202 | a download header exists exactly when the template length fits in two bytes, and then bytes 2-3 are that length big-endian |
| Fingerprint.DownloadEigenvaluesCompFingerprint | fingerprint.py:189-194 | always raises: too long when the length does not fit, and otherwise because the packet expression cannot be evaluated |
| Fingerprint.DownloadEigenvaluesCompDbById | fingerprint.py:197-205 | succeeds exactly for a convertible id and a template of 2..65535 bytes, with errors in the source's order; the output is the length header for 0x42 and a packet with the id bytes and check byte `id_high ^ template[1]` |
| Fingerprint.DownloadEigenvaluesCompDbMany | fingerprint.py:208-215 | succeeds exactly for a template of 2..65535 bytes; the output is the length header for 0x43 and a packet with zero id bytes and check byte `0 ^ template[1]` |
| Fingerprint.DownloadEigenvalueSaveById | fingerprint.py:224-233 | succeeds exactly for a convertible id, a 2..65535-byte template and a byte privilege, with errors in the source's order; the output is the header for 0x41 and a packet with id bytes, privilege and check byte `id_high ^ template[1]` |
| Fingerprint.AcquireUploadImgsAsWritten | fingerprint.py:179-181 | the image request as written ends in 0 where the tail marker belongs |
| Fingerprint.AcquireUploadImgs | fingerprint.py:179-181 | the image request as an 8-byte frame for opcode 0x24; its first seven bytes agree with the written request |
| Fingerprint.CompareManyAsWritten | fingerprint.py:150-152 | the identify request as written is 9 bytes with an extra 0 before the check byte |
| Fingerprint.CompareMany | fingerprint.py:150-152 | the identify request as an 8-byte frame for opcode 0x0C: the written request without its extra 0 |
| Fingerprint.SetCompLevelAsWritten | fingerprint.py:167-171 | levels outside 0..9 raise; otherwise 9 bytes with the level at index 3 |
| Fingerprint.SetCompLevel | fingerprint.py:167-171 | levels outside 0..9 raise; otherwise an 8-byte frame for opcode 0x28 with the level at index 3: the written frame without its extra 0 |
| Fingerprint.NineByteFramesMisread | fingerprint.py:150-171 | read as 8-byte frames, the two 9-byte requests carry the opcode where the tail marker belongs and leave a stray 0xF5 behind |
| Fingerprint.AcquireUploadImgsMissingTail | fingerprint.py:179-181 | the image request as written is not a command frame: its last byte is not the tail marker |
| Fingerprint.SelfTestVectors | fingerprint.py:258-267 | each self-test vector of the module equals its builder's output, for every draw |
| Responses.IsValid | fpController.py:17-33 | a reply is accepted exactly when both markers are 0xF5 and the status byte is none of the five failure codes; an empty reply raises `IndexError` at `res[0]`; bad markers fail first; each of 0x04, 0x08, 0x01, 0x06 and 0x05 gives its own failure, in both directions |
| Responses.ReplyCheckByteIgnored | fpController.py:17-33 | the reply's check byte never changes the verdict; a well-formed reply passes exactly when its status is not a failure code |
| Responses.DeclaredLength | fpController.py:216 | the big-endian value of header bytes 2-3, below 65536 |
| Responses.UserCount | fpController.py:102-106 | succeeds exactly when `is_valid` accepts the reply, and then is `res[2] * 256 + res[3]`; otherwise it fails as `is_valid` does |
| Responses.UserCountRoundTrip | fpController.py:102-106 | every count below 65536 sent in a success reply is read back unchanged |
| Responses.RepeatPolicy | fpController.py:39-47 | succeeds exactly when the reply is accepted; byte 3 = 0 means allow repeat and 1 means prohibit repeat, in both directions; other values give no answer |
| Responses.RepeatPolicyInvertsMode | fpController.py:44-47 | reading back the repeat byte of a "set" frame gives the policy that frame set |
| Responses.HeaderValue | fpController.py:152-156 | succeeds exactly when the reply is accepted, and then is byte 3 |
| Responses.ConfigurationReadBack | fpController.py:262-266 | a comparison level placed at byte 3 by the 9-byte level request as written, or a timeout placed at byte 3 by its setter, is what the getter reads back from a success reply |
| Responses.MatchedId | fpController.py:114-122 | succeeds exactly when the reply is accepted, and then is the two id bytes |
| Responses.MatchedUser | fpController.py:198-205 | succeeds exactly when the reply is accepted, and then is the id bytes and the status byte, which is not a failure code |
| Responses.Privilege | fpController.py:124-134 | succeeds exactly when the reply has a status byte other than ACK_NO_USER, and returns that byte; markers are not checked |
| Responses.StatusByteOverload | fpController.py:132-134 | a guest-tier status (1) is a privilege to the privilege query but a failure to `is_valid` |
| Responses.BodyData | fpController.py:140-145 | succeeds exactly when the packet's markers are 0xF5, and then is `packet[1:len-2]` |
| Responses.BodyRoundTrip | fpController.py:140-145 | a body packet of `L + 3` bytes yields exactly its `L` data bytes |
| Responses.ImageData | fpController.py:161-168 | the body data, accepted exactly when it is at most 9176 bytes and refused as oversized otherwise |
| Responses.EigenvalueData | fpController.py:173-179 | after the markers are checked, `packet[4:-2]`, accepted exactly when it is at most 193 bytes |
| Responses.TemplateRecord | fpController.py:213-221 | succeeds exactly for packets of 4 or more bytes: id from bytes 1-2, privilege from byte 3, template `packet[4:-2]` |
| Responses.TemplatePacketRoundTrip | fpController.py:218-220 | a download packet's id bytes, privilege and template are read back unchanged by the upload readers |
| Responses.UploadedTemplateRead | fpController.py:214-221 | an upload header that declares `|template| + 3` has the upload reader take the whole template packet and recover its id, privilege and template |
| Responses.SavedTemplateReadBack | fingerprint.py:224-233 | what the save-by-id builder sends declares the template length and reads back as the same id, privilege and template |
| Responses.UserRecords | fpController.py:241-250 | succeeds exactly when the data holds `3 * num` bytes; record `i` takes the id from bytes `3i..3i+2` and the privilege from byte `3i+2`, in order |
| Responses.UserTable | fpController.py:238-240 | checks the packet markers, reads the record count from `packet[1:3]` and the records from `packet[3:-2]` |
| Responses.EncodeUsersAt | fpController.py:243-246 | in a laid-out user table, bytes `3i..3i+2` are user i's id and byte `3i+2` is its privilege |
| Responses.UserTableRoundTrip | fpController.py:236-250 | every list of up to 65535 users with two-byte ids survives a trip through a user-table packet: same records, same order |
| Controller.Enrol | fpController.py:81-88 | an enrolment run writes at most one frame per step, and a run that passes has written one frame for every step |
| Controller.EnrolAllPass | fpController.py:81-88 | when every step is built and accepted, the run passes and writes every step's frame in order |
| Controller.EnrolStopsAt | fpController.py:81-87 | when step k is the first that fails, the frames of steps 0..k-1 are written in order, then step k's frame only if it was built, nothing after; the outcome is step k's failure |
| Controller.EnrolPassIff | fpController.py:81-88 | a run passes exactly when every step is built and accepted |
| Controller.EnrolSteps | fpController.py:59-72 | the three steps of an enrolment build add-1, add-2 and add-3 frames |
| Controller.EnrolmentUserExists | fpController.py:81-82 | a well-formed ACK_USER_EXIST reply to the first capture ends the enrolment with only the add-1 frame written |
| Controller.EnrolmentCompletes | fpController.py:81-88 | three accepted replies complete the enrolment with the add-1, add-2 and add-3 frames written in that order |
| Controller.CollectUsers | fpController.py:241-250 | the user-table loop computes exactly `UserRecords(data, num)` |
| Controller.FpController.constructor | fpController.py:11-12 | the controller talks to the port it is given |
| Controller.FpController.SetDormantState | fpController.py:35-37 | writes the dormant frame and consumes one 8-byte reply without looking at it |
| Controller.FpController.GetFingerprintMode | fpController.py:39-47 | writes the "read" add-mode frame, consumes 8 bytes and returns their decoded repeat policy |
| Controller.FpController.SetFingerprintMode | fpController.py:49-57 | writes the "set" add-mode frame for the requested policy and returns the verdict on the reply |
| Controller.FpController.RunSteps | fpController.py:81-88 | writes exactly the frames `Enrol` sends, consumes 8 bytes per frame written and returns the run's outcome |
| Controller.FpController.AddFingerprint | fpController.py:74-88 | writes exactly the enrolment frames `Enrol` sends for the three steps, consumes one 8-byte reply per frame and returns the enrolment's outcome |
| Controller.FpController.DelUser | fpController.py:90-100 | an unconvertible id raises before anything is written; otherwise writes the delete frame and returns the verdict on the reply |
| Controller.FpController.GetTotalUserCnt | fpController.py:102-106 | writes the count query and returns the count decoded from the reply |
| Controller.FpController.CompareById | fpController.py:108-112 | an unconvertible id raises before anything is written; otherwise writes the compare frame and returns the verdict |
| Controller.FpController.CompareFingerprintGetId | fpController.py:114-122 | writes the identify request as written (9 bytes), reads an 8-byte header and returns the matched id bytes |
| Controller.FpController.GetUserPrivilege | fpController.py:124-134 | an unconvertible id raises before anything is written; otherwise writes the privilege query and returns the status byte as the privilege |
| Controller.FpController.ReadBody | fpController.py:141 | reads `declared + 3` bytes, or what is left of the stream |
| Controller.FpController.GetDspModuleVersion | fpController.py:136-145 | a rejected header ends the call after 8 bytes; otherwise the body packet is read and its data returned |
| Controller.FpController.SetComparisonLevel | fpController.py:147-150 | a level outside 0..9 raises before anything is written; otherwise writes the level request as written (9 bytes, level at index 3), reads an 8-byte header and returns the verdict |
| Controller.FpController.GetComparisonLevel | fpController.py:152-156 | writes the level query and returns byte 3 of an accepted reply |
| Controller.FpController.AcquireUploadedImgs | fpController.py:158-168 | writes the image request as written (ending in 0); a rejected header ends the call; otherwise the body packet is read and its image data returned, refused above 9176 bytes |
| Controller.FpController.ExtractedUploadedEigenvalue | fpController.py:170-179 | a rejected header ends the call; otherwise the body packet is read and `packet[4:-2]` returned, refused above 193 bytes |
| Controller.FpController.SendEigenvalAndComparison | fpController.py:181-190 | always fails before anything is written, with the builder's cause: `OverflowError` for a template of 65536 bytes or more, otherwise the `TypeError` of its packet expression |
| Controller.FpController.SendEgvalAndComparisonById | fpController.py:192-196 | a builder error is raised before anything is written; otherwise writes the download and returns the verdict |
| Controller.FpController.SendEgvalAndFindIdPrivilege | fpController.py:198-205 | a builder error is raised before anything is written; otherwise writes the download and returns the id bytes and status of an accepted reply |
| Controller.FpController.GetSpecifiedEigenValById | fpController.py:207-221 | a rejected header ends the call; otherwise the body is read and decoded into id, privilege and template |
| Controller.FpController.SendEigenvalAndSaveById | fpController.py:223-226 | a builder error is raised before anything is written; otherwise writes the save download with the default privilege and returns the verdict |
| Controller.FpController.GetAllUsers | fpController.py:228-250 | a rejected header ends the call; otherwise reads `declared` bytes (no `+ 3`) and returns the decoded user table |
| Controller.FpController.SetTimeout | fpController.py:252-260 | a value outside 0..255 raises before anything is written; otherwise writes the timeout frame and returns the verdict |
| Controller.FpController.GetTimeout | fpController.py:262-266 | writes the 4-byte timeout query and returns byte 3 of an accepted reply |

## Left out

- Opening the serial port (port, baud rate, timeout) and closing it in `__del__` are not modelled. The port is the abstract `SerialPort`: a log of frames and a byte stream. A read that times out returns what is there.
- Wall-clock timing is not modelled. A reply that never comes is an empty or short read.
- The random id drawn for an empty user id is the parameter `draw` (0..3999), not a random generator. `add_fingerprint` converts the id once per step, so it takes three draws.
- User ids are given as an int or as the UTF-8 bytes of a string. Python's text encoding is not modelled, nor are ids of any other type, bytes included, which raise `AttributeError` at `user_id.encode()`.
- Responses.DeclaredLength: `int.from_bytes(head[2:4])` in `get_dsp_module_version` and `get_all_users` passes no byte order. The model reads big-endian, which is Python 3.11's default; earlier Pythons raise `TypeError` there.
- The 4300-digit limit on `str()` of an int is CPython's default from 3.11 on. A limit changed with `sys.set_int_max_str_digits` is not modelled.
- Responses.UserTable: `int.from_bytes(packet[1:3])` passes no byte order either, and is read big-endian on the same Python 3.11 assumption.
- `.decode()` of ids and of the version string is not modelled: ids and text are returned as raw bytes, and a `UnicodeDecodeError` cannot occur.
- Controller.FpController.AddFingerprint: `first_add_fp`, `second_add_fp` and `third_app_fp` return only `res[4]`, and `is_valid` of an int raises `TypeError`. The model validates the whole reply header, as evidently intended. The three helpers are folded into `RunSteps`.
- Controller.FpController.GetUserPrivilege: `int.from_bytes` of an int raises `TypeError`. The model returns the status byte itself, as evidently intended.
- Controller.FpController.ExtractedUploadedEigenvalue: `head[2:4] + 3` adds an int to bytes and raises. The model reads `declared + 3` bytes as the other body readers do.
- Controller.FpController.GetAllUsers: `for idx, data in range(num)` raises when unpacking an int. The model iterates over `idx` alone.
- `download_eigenvalues_comp_fingerprint` always raises at its packet expression, so `send_eigenval_and_comparison` never writes. Only the header's length check is modelled before that error.
- `USER_MAX_CNT` and the unused `CMD_MATCH` and `CMD_FINGER_DETECTED` constants are not modelled; no code uses them.
- dbController.py, main.py and testFPR.py are not part of this model.

## Findings

The controller methods send these requests as the builders write them
(`Controller.FpController.CompareFingerprintGetId`,
`Controller.FpController.SetComparisonLevel`,
`Controller.FpController.AcquireUploadedImgs`). The corrected builders state the
evidently intended frames and are proved to be 8-byte command frames.

| source | as written | input that shows it | evidently intended | confidence | as-written member | corrected member |
|---|---|---|---|---|---|---|
| fingerprint.py:179-181 | the image request ends in byte 0 | `acquire_upload_imgs()` ends `... 0x24, 0x00` | the tail marker 0xF5 as in every other frame | not executed | Fingerprint.AcquireUploadImgsMissingTail | Fingerprint.AcquireUploadImgs |
| fingerprint.py:150-152 | the identify request is 9 bytes, with an extra 0 before the check byte | `compare_many()` read as 8 bytes ends in 0x0C, and a stray 0xF5 follows | the 8-byte frame `F5 0C 00 00 00 00 0C F5` | not executed | Fingerprint.NineByteFramesMisread | Fingerprint.CompareMany |
| fingerprint.py:170-171 | the level request is 9 bytes, with an extra 0 before the check byte | `set_comp_level(7)` read as 8 bytes ends in 0x28, and a stray 0xF5 follows | the 8-byte frame `F5 28 00 07 00 00 28 F5` | not executed | Fingerprint.NineByteFramesMisread | Fingerprint.SetCompLevel |
