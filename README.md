# libg19 in Dafny

A model of libg19, the driver for the Logitech G19 keyboard, in its two
revisions: the older library that keeps one keyboard in file-level globals
(libg19.c, libg19.h) and the newer per-device library (libg19/libg19.c,
libg19/libg19.h). The demo command shell (demo.c), which drives the older
library, is modelled as well. The topics:

- **the LCD frame encoder**: a 154112-byte frame made of the 512-byte
  header and then either the caller's bytes or RGBA pixels packed to RGB565;
- **the key decoders**: bit by bit in the old library, a little-endian
  `memcpy` load in the new one;
- **the control requests**: brightness, backlight colour and M-key LEDs, as
  USB setup packets laid out per section 9.3 (Table 9-2) of the USB 2.0
  specification;
- **device selection and counting** in libusb's device list, and the claim
  loops;
- **the sessions**: the per-device `G19Device` and the old library's
  globals, with their three interrupt channels resubmitted from their
  completion callbacks;
- **the demo**: its `strtok` tokenizer, its command dispatcher, the
  `mled` mask and the key labels.

Every libusb call is replaced by the result it returns. These results are
parameters of the operations: the results of libusb_init, the device list,
the descriptor reads, the open, each claim and each submit. Everything a
session sends to the keyboard, every submission of an interrupt transfer
and every key word handed to a callback goes into an `events` log. Contracts
are stated over that log.

Module layout, one module per file:
- `Wrappers`: Option.
- `G19` and `LegacyHeader`: the two headers.
- `Usb`: the libusb data.
- `Keys`: the key decoders.
- `Frame`: the frame encoder.
- `Control`: the control packets.
- `Selection`: device choice and claiming.
- `Session`: the per-device library.
- `LegacyLibrary`: the old library.
- `Demo`: demo.c.

Where the driver's documented design and its code differ, the model follows
the code:
- The per-device library submits only the L-key and G-key transfers at
  open. The control transfer is first submitted from the G-key completion.
- The per-device G-key completion resubmits both transfers *before* it
  calls the key callback. The old one calls the callback first.
- Close frees no transfer at all (Findings).
- The G-key decoder's second guard tests `& 0x0`, so it never fires. It is
  not a test for "both bytes zero".
- Nothing checks that the caller's pixel buffer holds the `data[d + 1]` and
  `data[d + 2]` the conversion loop reads. That is a precondition here.
- The conversion loop of the per-device library stops at frame index
  G19_BMP_DSIZE. It therefore converts at most 76544 pixels and leaves the
  last 256 pixels of the panel zero. The old library fills all 76800
  pixels (`Frame.FullPanel`).
- The control requests of the per-device library test only for a NULL
  session, not for an open handle.
- `size < 0` on a `size_t` never fires.
- Submit results inside the completion callbacks are ignored.
- The old claim retry loop makes one claim request, then up to eleven
  more while the claim fails. Ten of those follow a one-second sleep.

## Model

| member | source | states |
|---|---|---|
| G19.FrameLayout | libg19/libg19.h:28-32 | G19_BMP_SIZE is G19_DATA_HDR_SIZE plus G19_BMP_DSIZE, and the pixel region is 320 x 240 pixels of two bytes |
| G19.Position | libg19/libg19.h:55-83 | every key has a bit below 24: L-keys in 0-7, G-keys in 8-19, M-keys in 20-23 (both directions) |
| G19.BitIsPosition | libg19/libg19.h:55-83 | each key constant is the single bit at the key's position |
| G19.PositionInjective | libg19/libg19.h:55-83 | no two keys share a bit position |
| G19.BitsDisjoint | libg19/libg19.h:55-83 | the constants of two different keys have no bit in common |
| G19.PositionOnto | libg19/libg19.h:55-83 | every position below 24 is some key's |
| G19.UpdateTypesDisjoint | libg19/libg19.h:89-93 | BMP and RAW are disjoint bits; 0 and BMP select the converting path, RAW and BMP \| RAW the raw copy |
| G19.VerCodeComponents | libg19/libg19.h:25 | each component below 256 can be read back from LIBG19_VERCODE |
| G19.VerCodeInjective | libg19/libg19.h:25 | LIBG19_VERCODE is injective on components below 256 |
| G19.VersionValue | libg19/libg19.h:26 | LIBG19_VERSION is 0x010101 |
| LegacyHeader.LegacyPosition | libg19.h:50-78 | old layout: G-keys in bits 0-11, M-keys in 12-15, L-keys in 16-23 (both directions) |
| LegacyHeader.LegacyBitIsPosition | libg19.h:50-78 | each old constant is the single bit at the key's old position |
| LegacyHeader.LegacyBitsDisjoint | libg19.h:50-78 | the 24 old constants are distinct single bits |
| LegacyHeader.LegacyGroups | libg19.h:50-78 | a constant lies in the low 16 bits exactly for G- and M-keys, and in bits 16-23 exactly for L-keys |
| LegacyHeader.LegacyGmFill | libg19.h:52-68 | every one of the low 16 bits is a G- or M-key's, so those constants fill the low 16 bits |
| LegacyHeader.LayoutsRotate | libg19.h:50-78 | a key sits 8 bits higher in the per-device layout, modulo 24 |
| LegacyHeader.LegacyLcdMaxDataIsPanel | libg19.h:95-97 | the documented maximum LCD data of 153600 bytes is 320 x 240 pixels of 2 bytes, i.e. G19_BMP_DSIZE |
| Keys.LegacyLKeys | libg19.c:192-219 | the L-key decoder reads only `data[0]` and yields `data[0] << 16` |
| Keys.ZeroMaskGuardNeverFires | libg19.c:228-229 | the `& 0x0` early return can never be taken |
| Keys.GKeysOfFirstByte | libg19.c:231-253 | the tests of `data[1]` yield exactly `data[1]` (G1-G8) |
| Keys.GKeysOfSecondByte | libg19.c:255-277 | the tests of `data[2]` yield exactly `data[2] << 8` (G9-G12, M1-MR) |
| Keys.LegacyGKeys | libg19.c:221-278 | zero when the presence byte is zero, else `data[1] \| data[2] << 8`; never an L-key bit |
| Keys.LegacyLKeyBit | libg19.c:192-219 | each L-key is reported exactly when its bit of `data[0]` is set |
| Keys.LegacyGKeyBit | libg19.c:221-278 | each G- or M-key is reported exactly when the presence byte is non-zero and its bit of `data[1]` or `data[2]` is set |
| Keys.LegacyLowGKeyBit | libg19.c:231-253 | G1-G8 come from the bits of `data[1]` |
| Keys.LegacyHighGmKeyBit | libg19.c:255-277 | G9-G12 and M1-MR come from the bits of `data[2]` |
| Keys.LegacyDecodersSeparate | libg19.c:192-278 | the L-key decoder reports no G/M-key and the G-key decoder no L-key |
| Keys.LoadLEByte | libg19/libg19.c:108-109 | byte b of the loaded word is buffer byte b when copied, else zero |
| Keys.KeyBitInByte | libg19/libg19.h:55-83 | a key's constant tests bit `Position % 8` of byte `Position / 8` |
| Keys.GKeyWordKey | libg19/libg19.c:103-116 | in a G-key event each key is set exactly when byte `p / 8`, bit `p % 8` of the 4-byte payload is |
| Keys.LKeyWordKey | libg19/libg19.c:123-134 | in an L-key event only the two copied bytes can set bits |
| Keys.GKeyRevisionsAgree | libg19/libg19.c:103-116 | with a non-zero presence byte both revisions report the same G- and M-keys |
| Keys.LKeyRevisionsAgree | libg19/libg19.c:123-134 | both revisions report the same L-keys |
| Keys.GKeyWordPresenceByte | libg19/libg19.c:108-109 | the per-device G-key word carries the presence byte in the L-key bits |
| Frame.PackUnpack | libg19/libg19.c:397-399 | packing keeps the top 5, 6 and 5 bits of red, green and blue, and nothing else |
| Frame.UnpackPack | libg19/libg19.c:397-399 | every 16-bit value is the packing of some colour |
| Frame.SampleColours | libg19/libg19.c:397-399 | red, green, blue and white pack to 0xF800, 0x07E0, 0x001F, 0xFFFF |
| Frame.PixelCount | libg19/libg19.c:396 | pixel k is converted exactly when `512 + 2k < limit` and `4k < size` |
| Frame.EncodedFrame | libg19/libg19.c:384-408 | every frame is G19_BMP_SIZE bytes and starts with the header |
| Frame.EncodeFrame | libg19/libg19.c:384-408 | the zeroed buffer, header copy and conversion loop or truncating copy produce EncodedFrame |
| Frame.CopyHeader | libg19/libg19.c:386-387 | the zeroed buffer holds the header and then zeros |
| Frame.ConvertPixels | libg19/libg19.c:389-402 | the conversion loop writes exactly the converted frame: each pixel little-endian after the header while both indices are in range, zeros after |
| Frame.CopyRaw | libg19/libg19.c:403-408 | the truncating copy puts the first `n` caller bytes after the header, zeros after |
| Frame.ConvertedHeader | libg19/libg19.c:386-387 | a converted frame starts with the header |
| Frame.RawHeader | libg19/libg19.c:386-387 | a raw frame starts with the header |
| Frame.ConvertedPixel | libg19/libg19.c:396-402 | pixel k is stored low byte first at 512 + 2k and decodes to the top bits of its red, green and blue bytes |
| Frame.ConvertedTailZero | libg19/libg19.c:386-402 | every byte after the last converted pixel stays zero |
| Frame.BeyondLimitZero | libg19/libg19.c:396 | bytes at or beyond the loop bound are never written |
| Frame.PixelCountBounds | libg19/libg19.c:396 | at most 76544 pixels (old revision: 76800) are converted, and exactly that many when the caller supplies enough |
| Frame.AlphaIgnored | libg19/libg19.c:393-399 | the fourth byte of each pixel never affects the frame |
| Frame.RevisionsAgreeBelowDataSize | libg19.c:387-394 | below G19_BMP_DSIZE the two revisions' converted frames agree |
| Frame.FullPanel | libg19/libg19.c:396 | with a full panel the old loop stores all 76800 pixels; the per-device loop leaves the last 256 zero |
| Frame.RawLayout | libg19/libg19.c:403-408 | raw mode: the caller's first `min(size, 153600)` bytes, then zeros; a full buffer comes back unchanged |
| Frame.RawTruncates | libg19/libg19.c:404-407 | caller bytes beyond the copied prefix do not influence the frame |
| Control.SetupRoundTrip | libg19/libg19.c:436 | a setup packet parses back from its 8 bytes |
| Control.SetupBytesRoundTrip | libg19/libg19.c:436 | any 8 bytes are the encoding of the setup they parse to |
| Control.ControlPacket | libg19/libg19.c:426-437 | a control buffer is 8 + wLength bytes long |
| Control.PacketLayouts | libg19/libg19.c:423-512 | brightness (0x41, 0x10, 0, 0, 1) + [level], backlight (0x21, 0x09, 0x0307, 1, 4) + [255, r, g, b], M-keys (0x21, 0x09, 0x0305, 1, 2) + [0x10, led] |
| Control.MLedByteKeys | libg19/libg19.c:493-506 | M1, M2, M3, MR light 0x80, 0x40, 0x20, 0x10 exactly when set; the low nibble is clear; other bits are ignored |
| Control.LegacyMLedByteKeys | libg19.c:454-467 | the same under the old header's M-key bits |
| Control.MLedRevisions | libg19.c:454-467 | the old LED byte is the new one with the key word shifted up by 8 |
| Selection.ScanFromSpec | libg19/libg19.c:48-66 | the scan from any entry, characterised without the loop |
| Selection.ScanSpec | libg19/libg19.c:48-69 | the scan selects the entry preceded by exactly `index` G19s, reports the first unreadable descriptor before it, or finds nothing when the list holds at most `index` G19s |
| Selection.SelectIffBelowCount | libg19/libg19.c:48-69 | with readable descriptors a device is found exactly when index < count |
| Selection.ClaimAltsSound | libg19/libg19.c:80-91 | the alternate-setting loop succeeds iff every detach and claim does, claiming a prefix of the interface numbers |
| Selection.ClaimIfacesSound | libg19/libg19.c:77-92 | the same for the interface loop |
| Selection.ClaimConfigsSound | libg19/libg19.c:71-95 | the claim loops succeed exactly when every request does, and then every interface is claimed in order; else a prefix is |
| Selection.ClaimAltSettings | libg19/libg19.c:80-91 | the loop computes ClaimAlts |
| Selection.ClaimInterfaces | libg19/libg19.c:77-92 | the loop computes ClaimIfaces |
| Selection.ClaimConfigurations | libg19/libg19.c:71-95 | the loop computes ClaimConfigs |
| Selection.InitSuccessHasHandle | libg19/libg19.c:33-96 | success always comes with an opened handle |
| Selection.DeviceInit | libg19/libg19.c:33-96 | first descriptor or open error, LIBUSB_ERROR_NO_DEVICE with no match, else the selected G19's handle and the claim result |
| Selection.StaleUdevSkipsNoDevice | libg19/libg19.c:41-69 | with one non-G19 entry that announces no configuration, the scan selects nothing, a stale `udev` skips the no-device return and the written init reports success with no handle opened; the corrected init reports LIBUSB_ERROR_NO_DEVICE |
| Selection.DeviceCount | libg19/libg19.c:320-357 | init and list errors are returned unchanged; otherwise the number of readable G19 entries |
| Selection.SupportedIsG19 | libg19.c:30-32 | the old table holds exactly the G19's vendor and product ids |
| Selection.ProcSelectSpec | libg19.c:73-82 | the old loop stops at the first entry that reads, matches and opens |
| Selection.ClaimWithRetry | libg19.c:101-108 | an unchecked claim, then one claim per loop test: always two more requests than sleeps, at most 10 sleeps, each after a failed claim, and fewer than 10 only when a claim succeeded |
| Selection.ProcAltSettings | libg19.c:93-109 | every alternate setting's interface is claimed, whatever the results |
| Selection.ProcInterfaces | libg19.c:89-110 | the same over the interfaces |
| Selection.ProcConfigs | libg19.c:84-113 | configurations whose descriptor cannot be read are skipped; every other one has all its interfaces claimed, in order |
| Selection.DeviceProc | libg19.c:63-120 | 0 and the first openable G19 with every readable configuration's interfaces claimed, or 1 with no handle |
| Selection.RevisionsPickSameDevice | libg19.c:73-116 | when every entry reads and opens, both revisions pick the same first G19 |
| Session.ChannelWords | libg19/libg19.c:180-185 | the key words load exactly the channel's buffer length |
| Session.G19Device.constructor | libg19/libg19.c:153-155 | a fresh session has every field zero |
| Session.G19Device.GKeyCompleted | libg19/libg19.c:103-116 | resubmits the control and then the key transfer before delivering the 4-byte word (only with a callback); keeps each key channel at one submission more than its completions and the control channel at one per G-key completion |
| Session.G19Device.LKeyCompleted | libg19/libg19.c:123-134 | resubmits the L-key transfer once, delivers the 2-byte word only with a callback |
| Session.ListFailureMissed | libg19/libg19.c:165-168 | the `size_t` comparison misses every negative list code; the signed test catches each, yet the written error label then reports `res`, i.e. Success, while the corrected open reports the list code |
| Session.Open | libg19/libg19.c:145-209 | NULL with the failing code, or a live session whose log holds one L-key and one G-key submission and no control one; a failed open calls the corrected close of the libg19/libg19.c:221-228 Findings row (the written close frees no transfer), which exits the context once libusb_init succeeded, closes the handle exactly when init opened one, and frees all three transfers exactly when they were allocated |
| Session.StartTransfers | libg19/libg19.c:176-195 | allocates all three transfers and submits the L-key then the G-key transfer, stopping at the first failing submission and reporting its code; on success the session is live |
| Session.OpenedSubmissions | libg19/libg19.c:187-195 | after open: one L-key, one G-key, no control submission |
| Session.CloseAsWritten | libg19/libg19.c:216-239 | NULL is a no-op; no allocated transfer is freed; handle closed, context exited |
| Session.CloseLeaksLiveSession | libg19/libg19.c:221-228 | a valid session holds all three transfers, so what CloseAsWritten leaves allocated is every one of them |
| Session.Close | libg19/libg19.c:216-239 | with `!= NULL` guards every allocated transfer is freed |
| Session.Lcd | libg19/libg19.c:369-413 | a NULL session or buffer gives LIBUSB_ERROR_INVALID_PARAM and sends nothing; else one bulk transfer of the frame to 0x02 |
| Session.SendControl | libg19/libg19.c:428-439 | a NULL session is rejected; otherwise one control buffer is sent |
| Session.Brightness | libg19/libg19.c:423-440 | the brightness buffer or LIBUSB_ERROR_INVALID_PARAM |
| Session.Backlight | libg19/libg19.c:452-472 | the backlight buffer or LIBUSB_ERROR_INVALID_PARAM |
| Session.MKeys | libg19/libg19.c:482-512 | the M-key LED buffer or LIBUSB_ERROR_INVALID_PARAM |
| Session.FirstNull | libg19/libg19.c:264 | the count loop stops at the first NULL, all before it present |
| Session.PollFds | libg19/libg19.c:250-278 | NULL for a NULL session or list; else n + 1 entries, the n descriptors and a zero terminator, n in `size` |
| Session.PollTo | libg19/libg19.c:290-296 | the NULL guards of the timeout query |
| Session.PollEv | libg19/libg19.c:305-313 | the NULL guard of event handling |
| LegacyLibrary.LegacyPayloadShape | libg19.c:363-405 | with a flag: a full frame behind the header; with none: the caller's `size` bytes unchanged |
| LegacyLibrary.LegacyPrependTruncates | libg19.c:396-397 | PREPEND copies `min(size, bsize - 512)` bytes and zero-fills the rest |
| LegacyLibrary.ProcNoneClearsHandle | libg19.c:115-119 | the handle is left NULL exactly when nothing was selected |
| LegacyLibrary.G19Library.constructor | libg19.c:34-48 | the globals start zero |
| LegacyLibrary.G19Library.Init | libg19.c:129-157 | -1 with every global unchanged when already initialised; libusb_init errors unchanged with the count and list kept; after the list read the count (or the negative error) and the entries are stored; -1 for an empty or failed list, else 0 with the first openable G19 as handle; events, transfers and callbacks untouched |
| LegacyLibrary.G19Library.SetGKeysCb | libg19.c:309-331 | without a device every global and the event record are unchanged; else stores the callback, allocates both transfers, submits the key transfer once; the L-key state, handle, count and list are kept |
| LegacyLibrary.G19Library.SetLKeysCb | libg19.c:339-354 | the same for the L-key transfer, keeping the G-key state, handle, count and list |
| LegacyLibrary.G19Library.GKeyCompleted | libg19.c:280-291 | delivers the decoded keys, then resubmits control and key transfers; submission counts stay consistent and no other global changes |
| LegacyLibrary.G19Library.LKeyCompleted | libg19.c:293-301 | delivers the decoded L-keys, then resubmits the L-key transfer; no other global changes |
| LegacyLibrary.G19Library.UpdateLcd | libg19.c:363-405 | nothing without a device or for size 0; else one bulk transfer of the payload to 0x02 |
| LegacyLibrary.G19Library.SetBacklight | libg19.c:416-436 | -1 and nothing sent without a device; else 0 and the backlight buffer |
| LegacyLibrary.G19Library.SetMkeyLed | libg19.c:445-475 | -1 and nothing sent without a device; else 0 and the LED buffer of the old M-key bits |
| Demo.TokenLen | demo.c:41-45 | the token ends at the end of the string or at a delimiter |
| Demo.TokenLenSpec | demo.c:41-45 | no delimiter occurs inside the token |
| Demo.Split | demo.c:41-45 | the `strtok` tokens of a line: never more tokens than characters |
| Demo.SplitTokens | demo.c:41-45 | every token is non-empty and free of the delimiter |
| Demo.SplitRoundTrip | demo.c:41-45 | the tokens put back together are the input without its delimiters |
| Demo.SplitEmpty | demo.c:41-48 | there is no token exactly when the line is all delimiters |
| Demo.SplitAppend | demo.c:41-45 | a prefix that ends with a delimiter tokenises on its own |
| Demo.Take | demo.c:43-48 | at most `limit` tokens are kept, in order |
| Demo.Tokenize | demo.c:41-48 | the `strtok` loop keeps the first four tokens |
| Demo.HelpView | demo.c:108 | the buffer as a C string after the first `strtok`: a prefix of the line |
| Demo.DispatchAgreesWithToken | demo.c:38-48 | the written and corrected parsers agree on every line with a token |
| Demo.BlankLineReadsStaleArg | demo.c:36-50 | an all-space line dispatches on a stale `args[0]` as written and does nothing once corrected |
| Demo.DispatchGuards | demo.c:38-48 | NULL, empty and all-space lines do nothing, and only those |
| Demo.DispatchArgsNotIgnored | demo.c:50-118 | a line with a token always takes one of the branches |
| Demo.BacklightSyntax | demo.c:50-62 | backlight with fewer than four tokens is a syntax error; with four it sets the three converted values |
| Demo.DispatchIsByPrefix | demo.c:63 | a longer word starting with "clrscr" clears the screen |
| Demo.QuitByPrefix | demo.c:114 | a longer word starting with "quit" quits |
| Demo.QuitWord | demo.c:114 | any single word whose first four characters are "quit" quits, since only four characters are compared |
| Demo.MledAlone | demo.c:72-75 | a bare `mled` turns every LED off |
| Demo.HelpWithArgument | demo.c:108 | `help` with an argument is still help |
| Demo.HelpFirst | demo.c:108 | a line that starts with the word `help` asks for help |
| Demo.HelpNeedsColumnZero | demo.c:108 | `help` is tested on the buffer, so " help" is an unknown command |
| Demo.QuitAfterSpace | demo.c:114 | the other tests look at the first token, so " quit" still quits |
| Demo.HelpViewIsFirstToken | demo.c:108 | without a leading space the buffer test is the first-token test |
| Demo.Lower | demo.c:86 | `tolower` maps A-Z to a-z and keeps every other character |
| Demo.MaskIsSelection | demo.c:77-105 | the mask is the OR of the M-keys some piece selects |
| Demo.MledBits | demo.c:77-105 | a key's bit is set exactly when it is an M-key some piece selects |
| Demo.MledNibble | demo.c:77-105 | nothing outside the four M-key bits is ever set |
| Demo.MledOrderFree | demo.c:77-105 | the mask does not depend on order or repetition of the pieces |
| Demo.MledKeys | demo.c:77-105 | the loop computes the mask of the `|`-tokens of the argument |
| Demo.MledExample | demo.c:86-101 | "m1\|MR\|x" lights M1 and MR |
| Demo.Zeros | demo.c:64-66 | the clrscr buffer: G19_BMP_DSIZE zero bytes |
| Demo.ClearScreenReadable | demo.c:64-68 | that buffer satisfies the old encoder's read bounds |
| Demo.ClearScreenBlack | demo.c:63-68 | clrscr sends the header followed by a black panel |
| Demo.CmdParse | demo.c:32-119 | the parser's action is Dispatch, and the library receives exactly that action's transfers |
| Demo.ParseCommand | demo.c:38-118 | the tokens and prefix tests pick exactly the action Dispatch names |
| Demo.Perform | demo.c:62-107 | the library receives exactly the chosen action's transfers and its session state is unchanged |
| Demo.ClearPanel | demo.c:64-68 | `clrscr` sends one bulk transfer of the header and the converted zero panel, and only with a device open |
| Demo.LabelName | demo.c:127-160 | each key's name is 2 to 6 characters without a space |
| Demo.PressedSpec | demo.c:28 | a key is listed exactly when it is in the table and held |
| Demo.LabelTokens | demo.c:28 | tokenised, a label is the names of the held keys in table order |
| Demo.LabelIsSpaced | demo.c:28 | the label is the held keys' names in order, each followed by a space |
| Demo.SpacedTokens | demo.c:28 | names joined by spaces split back into the names, and the text ends in a space |
| Demo.LabelLength | demo.c:28 | a label never exceeds the table's full length |
| Demo.LabelFullLength | demo.c:28 | with every key held the label takes the full length |
| Demo.LabelEmpty | demo.c:28 | with no key held the label is empty |
| Demo.FullLengths | demo.c:127-160 | the full G/M label is 51 characters, the L label 39 |
| Demo.BuildLabel | demo.c:125-143 | the `strcat` sequence yields the label and reports whether it and its NUL overrun the buffer |
| Demo.GKeysLabelAsWritten | demo.c:121-145 | the G/M label in a 40-byte buffer, with the overrun flag |
| Demo.GKeyBufferTooSmall | demo.c:123-142 | all sixteen keys held need 52 bytes, more than 40 |
| Demo.GKeysLabel | demo.c:121-145 | with a 52-byte buffer the label fits and reads back as the held keys |
| Demo.LKeysLabelAsWritten | demo.c:147-163 | through an `unsigned short` parameter the L-key label is always empty |
| Demo.LKeysLabel | demo.c:147-163 | taking the whole word, the label fits in 50 bytes and reads back as the held L-keys |

## Left out

- libusb itself is not part of this model. Every call is replaced by the result it returns, taken as a parameter. The calls are init and exit, the device list, descriptor reads, open and close, detach and set_configuration, claim, transfer alloc, fill, submit and free, the poll list, the next timeout and event handling.
- The old library's event thread, `pthread_create`, `pthread_join` and `pthread_exit`, and `libusb_lock_events` are left out: they are concurrency. `g19_device_pollto` and `g19_device_pollev` are modelled only up to their NULL guards.
- `sleep` and `usleep` are left out: they are timing. ClaimWithRetry counts the sleeps instead.
- The demo's `main` loop, `fgets`, `printf` and `puts` are left out: they are terminal I/O. `atoi` is a parameter.
- C memory lifetimes are left out: stack buffers handed to asynchronous transfers, and frame buffers that are never freed. Frames are values.
- hdata.h is not part of this model. The header bytes of both revisions are a 512-byte parameter.
- The old revision's `sizeof(hdata)` is taken as 512.
- The values of G19_PREPEND_HDATA and G19_DATA_TYPE_BMP are not shown, so the two flags are booleans.
- The prototypes of `g19_update_lcd` and `g19_set_backlight` in libg19.h do not match their definitions. The definitions are modelled.
- `g19_deinit` is left out: it is teardown of the globals in front of `pthread_exit`.
- The user-data pointer of the per-device callback is left out. Callbacks are identified only by a number.
- Session.Open: when the G-key submit fails, close frees the session while the L-key transfer is still in flight, holding the session as user data and the stack buffer `data`. That lifetime hazard is not modelled.
- LegacyLibrary.G19Library.GKeyCompleted and LegacyLibrary.G19Library.LKeyCompleted: the callback setters accept NULL, and the completions call through the pointer without a test, so a NULL callback crashes. That case is not modelled: both require a set callback.
- The model assumes a little-endian host for `memcpy(bits + i, &color, 2)` in the pixel loop and for the `memcpy` of the key words into a `uint32_t`. On a big-endian host the bytes sent and the key words read would differ.
- A demo command is a `seq<char>` in which each `char` stands for one byte of the `fgets` buffer. A multi-byte UTF-8 character counts once here, where the C code sees several bytes. So `strtok`, `strncmp` and the four-token limit are modelled on single-byte text only.
- Demo.BuildLabel: the sixteen and eight straight-line `print_key` statements are rendered as one loop over the key table in the same order.
- Session.G19Device.GKeyCompleted and Session.G19Device.LKeyCompleted: the buffer is kept only as long as the decoder reads it. The stale bytes of the shared 7-byte buffer are not modelled.

## Findings

| source | as written | input that shows it | evidently intended | confidence | as-written member | corrected member |
|---|---|---|---|---|---|---|
| libg19/libg19.c:41-69 | `udev` is never initialised, so the no-match test reads an indeterminate pointer | a list whose one entry is not a G19 and has no configuration, with a non-NULL value left in `udev`'s slot: init reports success without opening a handle | `udev` starts NULL and no match returns LIBUSB_ERROR_NO_DEVICE | not executed | Selection.StaleUdevSkipsNoDevice | Selection.DeviceInit |
| libg19/libg19.c:221-228 | the transfers are freed only when their pointers are NULL | any opened session passed to `g19_device_close` | free each transfer that is not NULL; the failure paths of Session.Open use this corrected close | not executed | Session.CloseLeaksLiveSession | Session.Close |
| demo.c:123-142 | the G-key label is built in a 40-byte buffer | key word 0xFFFF (all G- and M-keys held): 51 characters and the NUL | a buffer of at least 52 bytes | not executed | Demo.GKeyBufferTooSmall | Demo.GKeysLabel |
| demo.c:147 | the L-key callback takes `unsigned short`, dropping bits 16-23 where the old header puts the L-keys | the key word 0x10000 (HOME held) prints no name | take the whole `unsigned int` word | not executed | Demo.LKeysLabelAsWritten | Demo.LKeysLabel |
| libg19/libg19.c:165-168 | `devc` is a `size_t`, so `devc < LIBUSB_SUCCESS` is never true; and the list code never reaches `res`, so even a signed test would make the error label (line 204) report LIBUSB_SUCCESS with a NULL result | a device-list error of -1 | a signed comparison, and the list code reported through `error` | not executed | Session.ListFailureMissed | Session.Open |
| demo.c:38-50 | a non-empty line with no token leaves `argc` 0 and `args[0]` unset, yet `args[0]` is compared | a line of 99 spaces: `fgets` reads 99 characters and no newline | return when there is no token | not executed | Demo.BlankLineReadsStaleArg | Demo.CmdParse |
