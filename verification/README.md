# A verified model of the LN882H lamp firmware components

The project models the self-contained components of the firmware under
`ln882h-custom-imou/components/` and proves what they are for. Each component has the
form of its C source: contexts and static structs are classes whose methods update fields and
arrays, macros and loops are methods, and value functions are functions. Beside each stands a
specification on values, and the properties of whole runs are proved about that.

| files | component |
|---|---|
| `Gf256`, `AesTables`, `AesSpec`, `AesWords`, `Aes`, `AesExample` | AES (FIPS 197): the field, the tables, the standard, the table rounds, the context, the examples of the standard |
| `Sha1Spec`, `Sha1`, `Sha1Example` | SHA-1 (FIPS 180-4) and HMAC: the standard, the streaming context with its unrolled rounds, a known digest |
| `StubMalloc` | the block allocator with its length-labelled table |
| `Debounce`, `KeyEvents`, `Keyboard`, `KeyClicks` | the coupled key filter, the press machine, the object that runs both, what clicks and holds report |
| `DimmingCurve`, `FadeOrder`, `LampSpec`, `LampFade`, `LampFlash`, `LampTiming`, `LampLevels`, `Dimming` | fade engine and flash overlay of one lamp: curve, step functions, results about fades, overlays, durations and levels, and the object |
| `CrcTables`, `Crc16`, `Crc16Bits`, `Crc32`, `Crc32Bits`, `Modbus` | the three CRCs in table, byte and bit form |
| `AtLine`, `AtServer` | the AT line editor as two interleaved threads, and its procedures |
| `MemPool`, `RingList`, `Rotary` | chunk pool, intrusive list, quadrature decoder |
| `Words`, `Wrappers` | machine words, optional results |

How the parts hold together:

- **AES.** The table identities are proved entry by entry (`DTableColumn`, `ITableColumn`,
  `LogMulIsMul`, `SboxIsAffineInverse`); the rounds follow structurally from them. `Setup`
  yields the key schedule of the standard, `Encrypt` its cipher and `Decrypt` its inverse cipher,
  and `RoundTrip` runs all three.
- **SHA-1.** `Sha1Context.Valid` says that chaining value, buffer and bit counter are those of
  the ghost message. Every way of cutting a message into updates therefore ends in the same digest.
- **Allocator.** `Describes` is the heap invariant; the ghost map `live` holds the allocations.
- **Keyboard.** `KeyboardLib.Valid` says that the keys are those of `Debounce.Replay` on all
  registrations, removals and scans so far, and control state and callbacks those of
  `KeyEvents.Run` on all passes; the claims about runs are lemmas on `Replay` and `Run`.
- **Lamp.** Every method of `LampLib` is one step of `LampSpec`, and `LampLib.OnRun` says that lamp
  and callbacks are those of `LampSpec.Run` on all steps since the lamp was created. What user
  functions answer is an input.
- **AT server.** A state machine at the granularity of the shared-variable accesses. A run is any
  sequence of moves of the two threads. From the parse call to the reset the buffer is the
  parser's, which may leave anything there.

The step functions are shared by methods and run theorems. What they compute is therefore also
stated without them, on inputs and outputs written out: `KeyClicks`, `LampLevels`, `AesExample`,
`Sha1Example`, the last parts of `Debounce`, `AtLine` and `Rotary`, and the check values of the CRCs.

The table below begins with the main results of all components and goes on with the operations
and tables they rest on.

What the proofs show about the code, with the members that say so:

- Fades of all levels are monotone exactly up to 65538 steps (`MonotoneExactly`); with more steps
  the 32-bit product wraps, and the fade from 0 to full falls back to 0 (`FadeFallsBack`). For one
  fade the condition is exact in its gap and its steps (`SingleFadeExactly`).
- A default flash gives back a switch value above 1 as 1 (`SwitchTwoComesBackAsOne`). It never
  ends exactly if its period exceeds the largest value of the delay counter, or its count wraps
  to 0 while no fade is running (`FlashEndsExactly`; `LongestPeriodNeverEnds`,
  `WrappedCountNeverEnds`).
- A default flash started over a callback flash counts on from the parameters that the callback
  left, not from the saved ones (`RetriggeredFlashEnds`); with callback retriggers alone the saved
  ones come back (`CallbackFlashRestores`).
- The second clamp of the CCT command starts again from the argument, so its lower limit is not
  applied: a CCT of 0 or 1 is stored as it is (`CctLimits`).
- A line of exactly 512 characters can be completed and then emptied before the parser reads it
  (`FullLineCanBeLost`).
- CR LF on an empty line completes nothing, because more than two characters are needed; it stays
  in front of the next line, which the next CR or LF then completes (`LoneCrLfStays`). Every
  other completed line ends with its first CR LF (`LinesAreMarked`).
- A long release follows its presses in all runs exactly if the long-press callback is there, or
  no long release is ever reported (`LongReleasesExactly`, `LoneLongRelease`); for clicks see
  `SingleReleasesExactly` and `LoneClick`.
- Freeing a block inside a live run leaves no heap at all (`InteriorFreeBreaks`). Freeing an
  address that is no chunk buffer is rejected or leaves no pool (`MemPool.Free`).
- The 64-bit length field of SHA-1 is the bit count modulo 2^64 (`LengthIsBigEndian`).

## Model

| member | source | states |
|---|---|---|
| `Aes.RoundTrip` | ln882h-custom-imou/components/utils/ln_aes.c:290-478 | End to end: a fresh context set up with any key encrypts a block to the FIPS 197 ciphertext and decrypts it to the same bytes |
| `Aes.AesContext.Setup` | ln882h-custom-imou/components/utils/ln_aes.c:290-351 | For 16, 24 and 32 byte keys: both schedules filled, equal to FIPS 197 key expansion and its decryption form |
| `Aes.AesContext.Encrypt` | ln882h-custom-imou/components/utils/ln_aes.c:378-415 | The table rounds on the context compute the FIPS 197 cipher of the block; input and output ranges may overlap |
| `Aes.AesContext.Decrypt` | ln882h-custom-imou/components/utils/ln_aes.c:442-478 | The table rounds on the inverse keys compute the FIPS 197 inverse cipher of the block; the ranges may overlap |
| `AesExample.AppendixB` | ln882h-custom-imou/components/utils/ln_aes.c:290-415 | Known answer: the key and the input bytes of FIPS 197 appendix B, as a caller passes them, encrypt to the bytes given there; 10, 12 and 14 rounds for the three key sizes |
| `AesSpec.EqInvCipherIsInvCipher` | ln882h-custom-imou/components/utils/ln_aes.c:442-478 | The equivalent inverse cipher of FIPS 197 section 5.3.5, on round keys through InvMixColumns, equals the inverse cipher |
| `AesSpec.InvCipherInverts` | ln882h-custom-imou/components/utils/ln_aes.c:378-478 | The inverse cipher undoes the cipher for every block, key schedule and number of rounds |
| `AesSpec.CipherInverts` | ln882h-custom-imou/components/utils/ln_aes.c:378-478 | Encryption also undoes decryption: both are bijections on blocks |
| `AesWords.EncryptionRound` | ln882h-custom-imou/components/utils/ln_aes.c:388-399 | Four lookups, rotations and the index permutation per column are SubBytes, ShiftRows and MixColumns of FIPS 197 section 5.1 |
| `AesWords.DecryptionRound` | ln882h-custom-imou/components/utils/ln_aes.c:451-462 | The decryption lookups are InvSubBytes, InvShiftRows and InvMixColumns |
| `Gf256.LogMulIsMul` | ln882h-custom-imou/components/utils/ln_aes.c:525-531 | The logarithm and exponent tables multiply in GF(2^8): `mul` equals carry-less multiplication modulo x^8+x^4+x^3+x+1 for all 65536 pairs, zero included |
| `Gf256.SboxIsAffineInverse` | ln882h-custom-imou/components/utils/ln_aes.c:164-183 | Every entry of the S-box is the affine transform of the field inverse (FIPS 197 section 5.1.1) |
| `Sha1Code.Transform` | ln882h-custom-imou/components/utils/ln_sha1.c:63-170 | 80 unrolled rounds over the in-place workspace compute the compression function for every state and block |
| `Sha1Code.Sha1Context.Update` | ln882h-custom-imou/components/utils/ln_sha1.c:197-218 | Any piece is appended to the abstract message; chaining value, buffer and counter stay those of the message |
| `Sha1Code.Sha1Context.Final` | ln882h-custom-imou/components/utils/ln_sha1.c:227-254 | The padding loop stops at the padding of FIPS 180-4 section 5.1.1 and the digest is SHA-1 of everything taken in, however it was cut into pieces |
| `Sha1Example.DigestOfAbc` | ln882h-custom-imou/components/utils/ln_sha1.c:63-254 | Known answer: the digest of "abc" |
| `Sha1Code.HmacSha1` | ln882h-custom-imou/components/utils/ln_sha1.c:266-325 | HMAC-SHA-1 of RFC 2104 section 2, with long keys hashed first |
| `Sha1Code.WorkspaceNext` | ln882h-custom-imou/components/utils/ln_sha1.c:41-41 | `blk` overwrites a slot of the 16-word workspace with the next word of the 80-word schedule (FIPS 180-4 section 6.1.3 refines 6.1.2) |
| `StubMalloc.StubHeap.Malloc` | ln882h-custom-imou/components/libc/stub_malloc.c:67-104 | Fails exactly if the size is 0 or no free run is long enough; otherwise takes the highest free run, labels it and leaves the rest |
| `StubMalloc.StubHeap.Mfree` | ln882h-custom-imou/components/libc/stub_malloc.c:106-125 | For every offset: the result, the cleared cells, and that the heap stays described exactly if the offset is not inside a live run |
| `StubMalloc.StubHeap.MemRealloc` | ln882h-custom-imou/components/libc/stub_malloc.c:152-164 | The old bytes arrive as far as both runs reach, wherever the copy reads beyond; other bytes and runs stay, failure changes nothing; null allocates |
| `StubMalloc.StubHeap.UsePercent` | ln882h-custom-imou/components/libc/stub_malloc.c:166-178 | The percentage of blocks that live allocations cover |
| `StubMalloc.InteriorFreeBreaks` | ln882h-custom-imou/components/libc/stub_malloc.c:106-125 | Freeing a block inside a live run leaves a table that describes no set of runs at all |
| `StubMalloc.ForwardCopyDelivers` | ln882h-custom-imou/components/libc/stub_malloc.c:57-65 | A forward copy that reads on beyond the source run into its own output still delivers the source bytes |
| `Debounce.StatusChangeIsHeld` | ln882h-custom-imou/components/myKeyboardLib/myKeyboard.c:315-371 | Debounce safety over every such run: an accepted status has been read by its key for at least max(count,1)+1 consecutive scans, whatever other keys do through the shared reset |
| `Debounce.AcceptedExactly` | ln882h-custom-imou/components/myKeyboardLib/myKeyboard.c:315-371 | In every run, if no other reading changes, a new reading is accepted exactly at that scan and not before |
| `Debounce.RestartDelays` | ln882h-custom-imou/components/myKeyboardLib/myKeyboard.c:315-371 | Over every run: after such a scan no other key changes its status for fewer than count further scans if it comes before j, count-1 if it comes behind, whatever all keys read |
| `Debounce.RestartReaches` | ln882h-custom-imou/components/myKeyboardLib/myKeyboard.c:333-371 | In a scan in which key j reads something that differs from its status and its last reading, every earlier key has a full filter afterwards; a later key that is still pending has taken at most one step off a full filter |
| `Debounce.RestartThenAccepted` | ln882h-custom-imou/components/myKeyboardLib/myKeyboard.c:315-371 | Over every run: a key still pending after such a scan is accepted exactly with the scan its filter leaves if all readings hold: count (at least 1) before j, that or one less behind j |
| `KeyClicks.ClicksReported` | ln882h-custom-imou/components/myKeyboardLib/myKeyboard.c:213-304 | Over every run: n clicks of v within the double-press window are reported as ShortPress(v,1) to ShortPress(v,n), each release from the second on as ShortRelease(v,k), and nothing else; counts modulo 2^32 |
| `KeyClicks.WindowCloses` | ln882h-custom-imou/components/myKeyboardLib/myKeyboard.c:716-726 | When the window closes, a single click is reported as ShortRelease(v,1) and more clicks as nothing; the next click counts from 1 |
| `KeyClicks.HoldReported` | ln882h-custom-imou/components/myKeyboardLib/myKeyboard.c:243-304 | Over every run: a hold of m passes of d milliseconds reports exactly the long presses due by keep time and loop time, counted from 0, and its release carries the last count |
| `Debounce.FilterInvariant` | ln882h-custom-imou/components/myKeyboardLib/myKeyboard.c:315-371 | Over every run of scans, registrations and removals: a running filter leaves at least the scans that are missing |
| `KeyEvents.LongReleasesFollowPresses` | ln882h-custom-imou/components/myKeyboardLib/myKeyboard.c:213-304 | Over every run each LongRelease(v,n) directly follows LongPress(v,0) to LongPress(v,n) among the long events |
| `KeyEvents.LongReleasesExactly` | ln882h-custom-imou/components/myKeyboardLib/myKeyboard.c:267-295 | For all runs this holds exactly if the long-press callback is registered, the release callback is not, or the keep time is 0xFFFFFFFF |
| `KeyEvents.LongPressNeedsHold` | ln882h-custom-imou/components/myKeyboardLib/myKeyboard.c:243-256 | A long press is only reported after more than the keep time of unbroken v |
| `KeyEvents.SingleReleasesAreBacked` | ln882h-custom-imou/components/myKeyboardLib/myKeyboard.c:213-304 | Single-click releases never outnumber first presses |
| `KeyEvents.SingleReleasesExactly` | ln882h-custom-imou/components/myKeyboardLib/myKeyboard.c:213-304 | For all runs this holds exactly if the short-press callback is registered or the short-release callback is not |
| `Keyboard.KeyboardLib.Loop` | ln882h-custom-imou/components/myKeyboardLib/myKeyboard.c:695-728 | Nothing before the interval has passed (32-bit clock); then one scan and one event step, so that control state and callbacks are those of the whole run |
| `LampFade.FadeTrajectory` | ln882h-custom-imou/components/myDimmingLib/dimmingMain.c:588-640 | The fade and the levels sent to the hardware after any number of ticks in closed form; dimming-end is reported once, with the last tick |
| `LampLevels.LevelsFade` | ln882h-custom-imou/components/myDimmingLib/dimmingMain.c:588-640 | For a call for some levels and any number of ticks after it: the k-th output is on the line from the start to the 16-bit target on every channel, the last tick is period/interval+1 (modulo 2^32, at least 1), its output is the target, and so is the lamp from then on |
| `LampLevels.CommandShows` | ln882h-custom-imou/components/myDimmingLib/dimmingMain.c:918-1062 | Any command with the ticks after it: the outputs follow the line to those levels, and the lamp gets there and stays |
| `LampLevels.CommandAims` | ln882h-custom-imou/components/myDimmingLib/dimmingMain.c:651-674 | A command that is taken on a lamp that does not flash stores its parameters and fades to four zeros if the switch is now 0, and to the converted levels modulo 65536 if not; a failed conversion starts no fade; otherwise nothing changes |
| `DimmingCurve.LinearLevel` | ln882h-custom-imou/components/myDimmingLib/dimmingCurve.c:96-116 | The level of an unfinished step without division: v steps away from the source, v times the number of steps is at most the 32-bit product of step and gap, and v+1 times is more |
| `LampFade.ChannelReaches` | ln882h-custom-imou/components/myDimmingLib/dimmingMain.c:588-640 | Every channel stays in its interval and is at its target from the last tick on, not earlier |
| `LampFade.ChannelMonotoneExactly` | ln882h-custom-imou/components/myDimmingLib/dimmingMain.c:588-640 | It never turns back exactly if (steps-1) times gap fits 32 bits or steps exceed 2^32 less the power of two in the gap |
| `FadeOrder.SingleFadeExactly` | ln882h-custom-imou/components/myDimmingLib/dimmingCurve.c:96-116 | The fade between two given levels in a given number of steps is monotone exactly under that condition |
| `DimmingCurve.MonotoneExactly` | ln882h-custom-imou/components/myDimmingLib/dimmingCurve.c:96-116 | All fades of a given number of steps are monotone if and only if it is at most 65538 |
| `LampFlash.FlashRestores` | ln882h-custom-imou/components/myDimmingLib/dimmingMain.c:685-734 | Over every run of ticks, commands and retriggers: a default flash shows the saved parameters with the switch flipped exactly at odd counts; a switch value above 1 comes back as 1 |
| `LampLevels.CallbackFlashRestores` | ln882h-custom-imou/components/myDimmingLib/dimmingMain.c:685-734 | Over every run of a callback flash, whatever the callback does: the parameters from before it are kept and all given back with the last half period |
| `LampTiming.FlashEndsExactly` | ln882h-custom-imou/components/myDimmingLib/dimmingMain.c:708-734 | A default flash left alone ends exactly if its period is reachable by the delay counter and its count has not wrapped to 0, exactly after `Remaining` ticks, with 2n changes of the switch, the parameters back, and one flash-end report |
| `LampLevels.FlashShows` | ln882h-custom-imou/components/myDimmingLib/dimmingMain.c:685-734 | A default flash left alone: from the first half period on the lamp aims at dark or at the converted levels as the switch says, and is there when the flash is over |
| `LampLevels.TurnAims` | ln882h-custom-imou/components/myDimmingLib/dimmingMain.c:685-734 | At each half period of a flash the switch flips or the callback decides, and the fade goes to four zeros or to the converted levels accordingly, in the step time of the flash |
| `LampLevels.RetriggeredFlashEnds` | ln882h-custom-imou/components/myDimmingLib/dimmingMain.c:1113-1136 | A default flash started while one runs and then left alone changes the switch 2n times, plus once if an odd number was left, and ends exactly after `Remaining` ticks |
| `LampTiming.FlashDuration` | ln882h-custom-imou/components/myDimmingLib/dimmingMain.c:1113-1136 | That number in closed form: 2n half periods, each the period rounded up to whole ticks, and one fade |
| `LampTiming.RunReady` | ln882h-custom-imou/components/myDimmingLib/dimmingMain.c:708-734 | and so does every state it can reach |
| `LampTiming.CreatedReady` | ln882h-custom-imou/components/myDimmingLib/dimmingMain.c:745-814 | A lamp just created meets the assumptions of these results |
| `Dimming.LampLib.Loop` | ln882h-custom-imou/components/myDimmingLib/dimmingMain.c:1194-1224 | A due pass is one specified tick, and otherwise nothing happens; lamp and callbacks stay those of the run of all steps |
| `Crc16Bits.BitBurstDetected` | ln882h-custom-imou/components/myCrc/myCrc.c:149-177 | The same for every burst of at most sixteen bits, at any bit offset |
| `Crc32Bits.BitBurstDetected` | ln882h-custom-imou/components/utils/crc32.c:79-102 | The same for every burst of at most thirty-two bits, at any bit offset |
| `Crc16Code.Crc16Ccitt` | ln882h-custom-imou/components/utils/crc16.c:36-46 | The table form computes the bitwise register |
| `Crc16Code.MyCalcCRC` | ln882h-custom-imou/components/myCrc/myCrc.c:149-177 | The nested shift loops compute the bitwise register, so both functions agree on every buffer |
| `Crc32Code.SingleCal` | ln882h-custom-imou/components/utils/crc32.c:92-102 | The one-shot form computes the same value as any chunking of the same bytes |
| `Crc32Code.Crc32Context.Final` | ln882h-custom-imou/components/utils/crc32.c:87-90 | The complement of the register of all chunks |
| `Modbus.FrameWithChecksumIsZero` | ln882h-custom-imou/components/myCrc/myCrc.c:124-137 | A frame followed by its own checksum, low byte first, has checksum 0 |
| `AtLine.ParserGetsLines` | ln882h-custom-imou/components/ln_at/ln_at_server.c:496-618 | Over every interleaving the parser is given the completed lines of a plain line editor in order and once each; those shorter than 512 exactly as typed; except while the parser works, bytes past the index are zero |
| `AtLine.LineTyped` | ln882h-custom-imou/components/ln_at/ln_at_server.c:538-583 | On an empty line, text with CR LF after it, of fewer than 512 characters, is exactly one more completed line |
| `AtLine.LineWaits` | ln882h-custom-imou/components/ln_at/ln_at_server.c:572-609 | From its completion to the parse call no step of either thread touches such a line |
| `AtLine.BusyFrozen` | ln882h-custom-imou/components/ln_at/ln_at_server.c:514-522 | While busy no character is let in, and the character thread leaves the buffer of such a line alone |
| `AtLine.RunSound` | ln882h-custom-imou/components/ln_at/ln_at_server.c:496-618 | Every reachable state of every interleaving is sound |
| `AtLine.FullLineCanBeLost` | ln882h-custom-imou/components/ln_at/ln_at_server.c:587-591 | The bound is exact: a completed line of 512 characters can reach the parser empty |
| `AtLine.LinesAreMarked` | ln882h-custom-imou/components/ln_at/ln_at_server.c:570-576 | Every completed line ends with the first CR LF in it, or begins with CR LF |
| `MemPool.RunKeeps` | ln882h-custom-imou/components/utils/ln_mem_pool.h:49-109 | Conservation over every sequence of allocations and frees: the stack holds distinct chunks, none handed out, and free plus handed-out chunks are all chunks |
| `MemPool.FreeExactly` | ln882h-custom-imou/components/utils/ln_mem_pool.h:49-109 | A chunk is on the stack exactly when it is not handed out |
| `MemPool.MemPool.Free` | ln882h-custom-imou/components/utils/ln_mem_pool.h:74-109 | For every address in the memory of the pool: result and effect, exact for chunk buffers; a pool is still described afterwards exactly if the address was rejected or a buffer |
| `RingList.ForEachSafe` | ln882h-custom-imou/components/utils/ln_list.h:25-29 | Visits every element once even if any of them are removed on visit, and leaves the ring of those kept |
| `RingList.Remove` | ln882h-custom-imou/components/utils/ln_list.h:68-72 | Takes exactly one node out of the ring and leaves its own pointers; a node alone stays alone |
| `Rotary.CodesConserved` | ln882h-custom-imou/components/myKeyboardLib/myRotaryKey.c:166-441 | The same in terms of the raw contact codes of the readings that were due: neighbours (0,1), (1,3), (3,2), (2,0) count up, their reverses count down, everything else counts nothing |
| `Rotary.CountsConserved` | ln882h-custom-imou/components/myKeyboardLib/myRotaryKey.c:166-441 | Over every run reported, dropped and pending counts add up to clockwise less anticlockwise steps of the contacts |
| `Rotary.CountsExplainPosition` | ln882h-custom-imou/components/myKeyboardLib/myRotaryKey.c:166-441 | Both together: the counts explain the position |
| `Gf256.MulAssoc` | ln882h-custom-imou/components/utils/ln_aes.c:497-531 | The field multiplication that the tables implement is associative |
| `Gf256.InverseIsInverse` | ln882h-custom-imou/components/utils/ln_aes.c:207-245 | The inverse read off the log tables really is the multiplicative inverse of every non-zero byte |
| `AesSpec.InvSboxSbox` | ln882h-custom-imou/components/utils/ln_aes.c:164-204 | The two S-box tables are inverse to each other |
| `AesWords.DTableColumn` | ln882h-custom-imou/components/utils/ln_aes.c:28-93 | Every word of the encryption table is the S-box value times the MixColumns coefficients 2, 1, 1, 3 |
| `AesWords.ITableColumn` | ln882h-custom-imou/components/utils/ln_aes.c:95-160 | Every word of the decryption table is the inverse S-box value times 14, 9, 13, 11 |
| `AesWords.LastEncryptionRound` | ln882h-custom-imou/components/utils/ln_aes.c:401-412 | The S-box gathering of the last round is SubBytes and ShiftRows |
| `AesWords.LastDecryptionRound` | ln882h-custom-imou/components/utils/ln_aes.c:464-475 | The gathering of the last decryption round is InvSubBytes and InvShiftRows |
| `AesSpec.InvMixColumnInverts` | ln882h-custom-imou/components/utils/ln_aes.c:550-574 | InvMixColumns and MixColumns are inverse on every column |
| `AesSpec.EqInvCipherInverts` | ln882h-custom-imou/components/utils/ln_aes.c:342-478 | Decryption with the transformed keys undoes encryption for every block and schedule |
| `Aes.KeyAddition8To32` | ln882h-custom-imou/components/utils/ln_aes.c:594-611 | Loads 16 bytes little-endian and adds a round key: AddRoundKey on the block the bytes stand for |
| `Aes.KeyAddition32` | ln882h-custom-imou/components/utils/ln_aes.c:631-637 | AddRoundKey on words |
| `Aes.KeyAddition32To8` | ln882h-custom-imou/components/utils/ln_aes.c:657-674 | AddRoundKey and storing as bytes; bytes behind the 16 are untouched |
| `Aes.InvMixColumnWords` | ln882h-custom-imou/components/utils/ln_aes.c:550-574 | The 4 by 4 loop with `mul` applies InvMixColumn to each of four words |
| `Aes.ExpandKey` | ln882h-custom-imou/components/utils/ln_aes.c:316-340 | The little-endian in-place expansion loop yields the words of FIPS 197 section 5.2 for keys of 4, 6 and 8 words |
| `Aes.InverseKeys` | ln882h-custom-imou/components/utils/ln_aes.c:342-350 | First and last round key copied, all others through InvMixColumn |
| `AesExample.Words10` | ln882h-custom-imou/components/utils/ln_aes.c:316-340 | Known answer: the expansion of appendix A.1 down to its last four words |
| `AesExample.Words192` | ln882h-custom-imou/components/utils/ln_aes.c:316-340 | Known answer: the first words after the key of appendix A.2 |
| `AesExample.Words256` | ln882h-custom-imou/components/utils/ln_aes.c:316-340 | Known answer: the first words after the key of appendix A.3, with the extra substitution |
| `Sha1Code.ChooseIsCh` | ln882h-custom-imou/components/utils/ln_sha1.c:44-47 | The source form of the choose function is the one of FIPS 180-4 section 4.1.1 |
| `Sha1Code.MajorityIsMaj` | ln882h-custom-imou/components/utils/ln_sha1.c:50-51 | The source form of the majority function is the one of FIPS 180-4 |
| `Sha1Code.SwapLoads` | ln882h-custom-imou/components/utils/ln_sha1.c:35-39 | Byte-swapping a little-endian load is a big-endian load |
| `Sha1Code.WorkspaceFirst` | ln882h-custom-imou/components/utils/ln_sha1.c:35-39 | `blk0` swaps a word in place and keeps the circular workspace in step with the schedule |
| `Sha1Code.R0` | ln882h-custom-imou/components/utils/ln_sha1.c:44-45 | One of rounds 0 to 15, with rotated argument names, is a round of FIPS 180-4 |
| `Sha1Code.R1` | ln882h-custom-imou/components/utils/ln_sha1.c:46-47 | The same for rounds 16 to 19 |
| `Sha1Code.R2` | ln882h-custom-imou/components/utils/ln_sha1.c:48-49 | The same for rounds 20 to 39 |
| `Sha1Code.R3` | ln882h-custom-imou/components/utils/ln_sha1.c:50-51 | The same for rounds 40 to 59 |
| `Sha1Code.R4` | ln882h-custom-imou/components/utils/ln_sha1.c:52-53 | The same for rounds 60 to 79 |
| `Sha1Code.Sha1Context.constructor` | ln882h-custom-imou/components/utils/ln_sha1.c:178-187 | The initial chaining value, an empty message |
| `Sha1Code.CountAdd` | ln882h-custom-imou/components/utils/ln_sha1.c:203-207 | The two 32-bit words with their carry count bits modulo 2^64 |
| `Sha1Example.RoundConstants` | ln882h-custom-imou/components/utils/ln_sha1.c:44-53 | The four round constants are the whole parts of 2^30 times the roots of 2, 3, 5 and 10 |
| `Sha1Example.LengthIsBigEndian` | ln882h-custom-imou/components/utils/ln_sha1.c:231-238 | The last eight bytes of the padding are the bit length modulo 2^64, high byte first |
| `Sha1Example.HmacOfKey` | ln882h-custom-imou/components/utils/ln_sha1.c:266-325 | A key of up to 64 bytes is padded with zeros and added to 0x36 inside and 0x5c outside; a longer one is first hashed |
| `StubMalloc.StubHeap.Init` | ln882h-custom-imou/components/libc/stub_malloc.c:127-131 | Empties the table |
| `StubMalloc.StubHeap.MemMalloc` | ln882h-custom-imou/components/libc/stub_malloc.c:142-150 | The same in terms of addresses |
| `StubMalloc.StubHeap.MemFree` | ln882h-custom-imou/components/libc/stub_malloc.c:133-140 | The same for addresses; null and addresses outside the pool change nothing |
| `StubMalloc.StubHeap.Memcpy` | ln882h-custom-imou/components/libc/stub_malloc.c:57-65 | The forward byte copy, also when it reads what it has written |
| `StubMalloc.DescribesAfterMalloc` | ln882h-custom-imou/components/libc/stub_malloc.c:67-104 | The heap invariant (disjoint runs, every cell labelled with its run length or 0) survives an allocation |
| `StubMalloc.DescribesAfterFree` | ln882h-custom-imou/components/libc/stub_malloc.c:106-125 | and a free |
| `StubMalloc.FreeUndoesMalloc` | ln882h-custom-imou/components/libc/stub_malloc.c:67-125 | Freeing what was just allocated puts the table back |
| `StubMalloc.UsedIsCovered` | ln882h-custom-imou/components/libc/stub_malloc.c:166-178 | Non-zero cells are exactly the blocks of live runs |
| `Debounce.NoRestartReaches` | ln882h-custom-imou/components/myKeyboardLib/myKeyboard.c:333-371 | In any other scan a pending key that reads the same again takes exactly one step, and is accepted when its filter has run down |
| `Keyboard.GetKeyPressNum` | ln882h-custom-imou/components/myKeyboardLib/myKeyboard.c:193-202 | Clearing lowest bits counts the set bits |
| `Keyboard.KeyboardLib.constructor` | ln882h-custom-imou/components/myKeyboardLib/myKeyboard.c:659-684 | The start of the empty run |
| `Keyboard.KeyboardLib.FindKey` | ln882h-custom-imou/components/myKeyboardLib/myKeyboard.c:401-416 | The position of a key, or that there is none |
| `Keyboard.KeyboardLib.RegisterKey` | ln882h-custom-imou/components/myKeyboardLib/myKeyboard.c:427-452 | The three error results and the appended key; keys stay distinct single bits |
| `Keyboard.KeyboardLib.UnRegisterKey` | ln882h-custom-imou/components/myKeyboardLib/myKeyboard.c:477-492 | Exactly the key disappears and the later ones move up |
| `Keyboard.KeyboardLib.FilterReset` | ln882h-custom-imou/components/myKeyboardLib/myKeyboard.c:315-322 | All filters restart |
| `Keyboard.KeyboardLib.Read` | ln882h-custom-imou/components/myKeyboardLib/myKeyboard.c:333-371 | One scan of all keys is the specified scan; the result is the mask of pressed keys |
| `Keyboard.KeyboardLib.DoublePressWindow` | ln882h-custom-imou/components/myKeyboardLib/myKeyboard.c:716-726 | The double-press window is the specified step |
| `Keyboard.KeyboardLib.StatusMachine` | ln882h-custom-imou/components/myKeyboardLib/myKeyboard.c:213-304 | The event machine is the specified step, with all its callbacks |
| `KeyEvents.LoneLongRelease` | ln882h-custom-imou/components/myKeyboardLib/myKeyboard.c:267-272 | Otherwise a key pressed, held and released is a long release without presses |
| `KeyEvents.LoneClick` | ln882h-custom-imou/components/myKeyboardLib/myKeyboard.c:716-726 | Otherwise a click is a release without a press |
| `KeyClicks.SlowClickReported` | ln882h-custom-imou/components/myKeyboardLib/myKeyboard.c:231-242 | A click released only when the window has closed is ShortPress(v,1) and, in the pass of its release, ShortRelease(v,1) |
| `KeyClicks.KeysJoin` | ln882h-custom-imou/components/myKeyboardLib/myKeyboard.c:213-304 | Keys that join pressed ones are a press of all of them, with one more than the last count if those were just clicked and else with 1 |
| `KeyClicks.KeysLeave` | ln882h-custom-imou/components/myKeyboardLib/myKeyboard.c:213-304 | Keys that leave while others stay are no event; the hold starts again |
| `KeyClicks.MaskTells` | ln882h-custom-imou/components/myKeyboardLib/myKeyboard.c:364-370 | The mask that the scan returns has the bit of a registered key exactly if its accepted status is pressed |
| `DimmingCurve.LinearUnfinished` | ln882h-custom-imou/components/myDimmingLib/dimmingCurve.c:96-116 | For 16-bit levels the curve stays between source and target and reaches the target only on the last step, even when the 32-bit product wraps |
| `DimmingCurve.LinearInOrder` | ln882h-custom-imou/components/myDimmingLib/dimmingCurve.c:96-116 | Without overflow of the product later steps are never nearer to the source |
| `FadeOrder.LargestRemainder` | ln882h-custom-imou/components/myDimmingLib/dimmingCurve.c:103-109 | Some step of every fade has the largest possible remainder of the wrapped product |
| `DimmingCurve.FadeFallsBack` | ln882h-custom-imou/components/myDimmingLib/dimmingCurve.c:96-116 | Beyond that, the fade from 0 to 65535 drops back to 0 at step 65538 |
| `LampFade.FadeStarts` | ln882h-custom-imou/components/myDimmingLib/dimmingMain.c:1074-1102 | The target is truncated to 16 bits and the last tick is period/interval+1, unless that sum wraps, when it is 1 |
| `LampFade.LongFadeTurnsBack` | ln882h-custom-imou/components/myDimmingLib/dimmingMain.c:588-640 | A longer fade that does turn back |
| `LampLevels.CreatedAims` | ln882h-custom-imou/components/myDimmingLib/dimmingMain.c:745-814 | A new lamp starts at four zeros and fades to the levels for its parameters |
| `LampFlash.OverlayKept` | ln882h-custom-imou/components/myDimmingLib/dimmingMain.c:685-734 | No single step breaks that |
| `LampTiming.TickCounts` | ln882h-custom-imou/components/myDimmingLib/dimmingMain.c:708-734 | Every tick takes one off the remaining time; the switch changes exactly when the count does |
| `LampTiming.EndlessRun` | ln882h-custom-imou/components/myDimmingLib/dimmingMain.c:708-734 | Otherwise the flash never ends |
| `LampTiming.LongestPeriodNeverEnds` | ln882h-custom-imou/components/myDimmingLib/dimmingMain.c:708-734 | A single flash with period 0xFFFFFFFF never ends |
| `LampTiming.WrappedCountNeverEnds` | ln882h-custom-imou/components/myDimmingLib/dimmingMain.c:1113-1136 | Nor do 2^31 flashes on a lamp with no running fade: the count wraps to 0 |
| `LampTiming.SwitchTwoComesBackAsOne` | ln882h-custom-imou/components/myDimmingLib/dimmingMain.c:726-729 | A lamp whose switch is 2 comes back from a flash with switch 1 |
| `Dimming.LampLib.constructor` | ln882h-custom-imou/components/myDimmingLib/dimmingMain.c:1167-1182 | An interval of 0 becomes 1, no lamp yet |
| `Dimming.LampLib.CreateLamp` | ln882h-custom-imou/components/myDimmingLib/dimmingMain.c:745-814 | Error results; a new lamp with given or default parameters applied, where its run begins |
| `Dimming.LampLib.DeleteLamp` | ln882h-custom-imou/components/myDimmingLib/dimmingMain.c:825-841 | Only an existing lamp can be deleted |
| `Dimming.LampLib.PwmsCtrl` | ln882h-custom-imou/components/myDimmingLib/dimmingMain.c:1074-1102 | Starts the specified fade in place |
| `Dimming.LampLib.SetLevels` | ln882h-custom-imou/components/myDimmingLib/dimmingMain.c:1074-1102 | The same as a call of the user, which nothing blocks |
| `Dimming.LampLib.DevStatusCtrl` | ln882h-custom-imou/components/myDimmingLib/dimmingMain.c:651-674 | Hook, off levels or converted levels, and the fade; a failed conversion starts none |
| `Dimming.LampLib.StepFade` | ln882h-custom-imou/components/myDimmingLib/dimmingMain.c:588-640 | One step of the fade with its outputs and hooks is the specified step |
| `Dimming.LampLib.FlashStep` | ln882h-custom-imou/components/myDimmingLib/dimmingMain.c:708-734 | One step of the flash is the specified step, with callback and without |
| `Dimming.LampLib.CallSceneCtrl` | ln882h-custom-imou/components/myDimmingLib/dimmingMain.c:918-936 | Sets all parameters; ignored while flashing |
| `Dimming.LampLib.SwitchCtrl` | ln882h-custom-imou/components/myDimmingLib/dimmingMain.c:947-967 | Rejects other values than off and on; ignored while flashing |
| `Dimming.LampLib.BriCtrl` | ln882h-custom-imou/components/myDimmingLib/dimmingMain.c:978-997 | Rejected on a lamp that is off; ignored while flashing |
| `Dimming.LampLib.CctCtrl` | ln882h-custom-imou/components/myDimmingLib/dimmingMain.c:1008-1029 | Rejected on a lamp that is off; the second clamp overrides the first, so only the upper limit acts |
| `LampSpec.CctLimits` | ln882h-custom-imou/components/myDimmingLib/dimmingMain.c:1023-1024 | The stored CCT meets both limits exactly if the argument meets the lower one |
| `Dimming.LampLib.ColorCtrl` | ln882h-custom-imou/components/myDimmingLib/dimmingMain.c:1040-1062 | Rejected on a lamp that is off; ignored while flashing |
| `Dimming.LampLib.StartFlashing` | ln882h-custom-imou/components/myDimmingLib/dimmingMain.c:1113-1136 | Starts or retriggers a flash with 32-bit counts; the backup is taken once |
| `Crc16Code.Crc16TabEntry` | ln882h-custom-imou/components/utils/crc16.c:5-34 | Every entry of the table is eight bitwise steps of its index |
| `Crc16Code.TableStepIsStep` | ln882h-custom-imou/components/utils/crc16.c:36-46 | A table step equals eight bitwise steps for every register and byte |
| `Crc16Code.Crc16Append` | ln882h-custom-imou/components/myCrc/myCrc.c:149-177 | The register of a concatenation continues from the first part |
| `Crc16Code.BurstDetected` | ln882h-custom-imou/components/myCrc/myCrc.c:149-177 | Messages of any equal length that differ only within two adjacent bytes have different checksums |
| `Crc16Bits.DifferedOnTop` | ln882h-custom-imou/components/myCrc/myCrc.c:160-172 | Registers that meet after n bits differed only in their first n |
| `Crc16Code.CheckValue` | ln882h-custom-imou/components/utils/crc16.c:36-46 | Known answer: the CRC-16 of "123456789" is 0x31C3 |
| `Crc32Code.Crc32TabEntry` | ln882h-custom-imou/components/utils/crc32.c:4-70 | Every entry of the table is eight reflected bitwise steps of its index |
| `Crc32Code.TableStepIsStep` | ln882h-custom-imou/components/utils/crc32.c:79-102 | A table step equals eight reflected bitwise steps |
| `Crc32Code.Crc32Context.Init` | ln882h-custom-imou/components/utils/crc32.c:74-77 | The context starts with all ones |
| `Crc32Code.Crc32Context.Update` | ln882h-custom-imou/components/utils/crc32.c:79-85 | Every chunk continues the register of the message so far |
| `Crc32Code.RegisterAppend` | ln882h-custom-imou/components/utils/crc32.c:79-102 | Chunking does not matter to the bitwise register |
| `Crc32Code.WindowAsWord` | ln882h-custom-imou/components/utils/crc32.c:79-102 | Four bytes act on the register like one 32-bit word |
| `Crc32Code.BurstDetected` | ln882h-custom-imou/components/utils/crc32.c:79-102 | Messages of any equal length that differ only within four adjacent bytes have different CRC-32 values |
| `Crc32Code.CheckValue` | ln882h-custom-imou/components/utils/crc32.c:79-102 | Known answer: the CRC-32 of "123456789" is 0xCBF43926 |
| `Modbus.TableEntry` | ln882h-custom-imou/components/myCrc/myCrc.c:33-81 | The two half tables together are eight reflected steps with 0xA001 |
| `Modbus.TableStep` | ln882h-custom-imou/components/myCrc/myCrc.c:124-137 | A step on the high and low halves is a step of the 16-bit register |
| `Modbus.UsMBCRC16` | ln882h-custom-imou/components/myCrc/myCrc.c:124-137 | The split-table loop computes the bitwise Modbus CRC |
| `Modbus.CheckValue` | ln882h-custom-imou/components/myCrc/myCrc.c:124-137 | Known answer: the Modbus CRC of "123456789" is 0x4B37 |
| `AtLine.Next` | ln882h-custom-imou/components/ln_at/ln_at_server.c:496-618 | Every step of either thread keeps the handshake: one owner of the line while busy, semaphore at most 1, room for a character that is let in |
| `AtLine.EditSound` | ln882h-custom-imou/components/ln_at/ln_at_server.c:538-583 | Append, backspace, escape and ignored characters keep buffer and line editor equal |
| `AtLine.CheckSound` | ln882h-custom-imou/components/ln_at/ln_at_server.c:564-576 | So do line ends, completing a line or not |
| `AtLine.TaskSound` | ln882h-custom-imou/components/ln_at/ln_at_server.c:602-617 | So do the steps of the parser task, which may rewrite the buffer between the parse call and the reset |
| `AtLine.LoneCrLfStays` | ln882h-custom-imou/components/ln_at/ln_at_server.c:570-576 | The second case occurs: a lone CR LF completes nothing, and the next CR completes a line without LF |
| `AtLine.ControlsTyped` | ln882h-custom-imou/components/ln_at/ln_at_server.c:538-583 | 0x1B empties the line; other control characters but 0x08, 0x0A and 0x0D change nothing |
| `AtLine.BackspaceTyped` | ln882h-custom-imou/components/ln_at/ln_at_server.c:538-583 | 0x08 and 0x7F undo the last stored character, and change nothing on an empty line |
| `AtLine.FullLineDropped` | ln882h-custom-imou/components/ln_at/ln_at_server.c:585-591 | The character that fills the buffer drops the line |
| `AtServer.AtServer.Preparser` | ln882h-custom-imou/components/ln_at/ln_at_server.c:496-592 | A whole call on the shared buffer is the specified sequence of steps |
| `AtServer.AtServer.Serve` | ln882h-custom-imou/components/ln_at/ln_at_server.c:599-619 | A round of the parser task is the specified sequence of steps and hands over the buffer up to the index, whatever parser and command leave in it |
| `AtServer.AtServer.FindEndMark` | ln882h-custom-imou/components/ln_at/ln_at_server.c:572-572 | The C string search finds CR LF exactly if the line has it |
| `AtServer.ArrivedIsRun` | ln882h-custom-imou/components/ln_at/ln_at_server.c:496-592 | Such a call is a run of the two threads |
| `AtServer.ServedIsRun` | ln882h-custom-imou/components/ln_at/ln_at_server.c:599-619 | So is a round of the parser |
| `MemPool.FreeUndoesAlloc` | ln882h-custom-imou/components/utils/ln_mem_pool.h:49-109 | A free undoes the allocation; freeing a chunk that is still free is rejected without change |
| `MemPool.ExhaustedExactly` | ln882h-custom-imou/components/utils/ln_mem_pool.h:55-57 | Allocation fails exactly when every chunk is handed out |
| `MemPool.BuffersDisjoint` | ln882h-custom-imou/components/utils/ln_mem_pool.h:29-33 | Buffers of different chunks do not overlap and hold no id or flag byte |
| `MemPool.MemPool.Init` | ln882h-custom-imou/components/utils/ln_mem_pool.h:27-47 | All chunks flagged free and on the stack in order |
| `MemPool.MemPool.Alloc` | ln882h-custom-imou/components/utils/ln_mem_pool.h:49-72 | Pops a chunk and changes only its flag; the branch for a wrong flag cannot be reached |
| `RingList.Inverse` | ln882h-custom-imou/components/utils/ln_list.h:7-10 | On a ring next and prev are inverse to each other |
| `RingList.Neighbours` | ln882h-custom-imou/components/utils/ln_list.h:7-10 | Along a ring every next is the following node and every prev the one before, and the ends meet |
| `RingList.KeptExactly` | ln882h-custom-imou/components/utils/ln_list.h:25-29 | What the removing traversal leaves is exactly the chosen elements in their order |
| `RingList.IsEmpty` | ln882h-custom-imou/components/utils/ln_list.h:45-48 | True exactly for a head alone |
| `RingList.Init` | ln882h-custom-imou/components/utils/ln_list.h:39-43 | A head alone is a ring |
| `RingList.Insert` | ln882h-custom-imou/components/utils/ln_list.h:50-57 | Appends exactly the element |
| `RingList.Add` | ln882h-custom-imou/components/utils/ln_list.h:59-66 | Prepends exactly the element |
| `RingList.RemoveInit` | ln882h-custom-imou/components/utils/ln_list.h:74-80 | The same, and the node becomes a ring of its own |
| `RingList.ForEach` | ln882h-custom-imou/components/utils/ln_list.h:15-18 | Visits all elements in order |
| `RingList.ForEachReverse` | ln882h-custom-imou/components/utils/ln_list.h:20-23 | Visits the mirror image |
| `Rotary.DuePassReports` | ln882h-custom-imou/components/myKeyboardLib/myRotaryKey.c:363-391 | With a callback, a pass on which the delay since the last report has passed leaves nothing pending: all steps so far are reported or dropped |
| `Rotary.EarlyPassWaits` | ln882h-custom-imou/components/myKeyboardLib/myRotaryKey.c:363-391 | and any other pass reports nothing |
| `Rotary.PressDrops` | ln882h-custom-imou/components/myKeyboardLib/myRotaryKey.c:419-424 | When the push button changes, exactly the pending count is dropped |
| `Rotary.PositionCongruent` | ln882h-custom-imou/components/myKeyboardLib/myRotaryKey.c:166-441 | The position is the first one plus net steps plus two for every jump across, modulo 4 |
| `Rotary.DropsNeedAPress` | ln882h-custom-imou/components/myKeyboardLib/myRotaryKey.c:363-441 | With a callback and a push button held or released throughout nothing is dropped |
| `Rotary.RotaryKey.SwitchRead` | ln882h-custom-imou/components/myKeyboardLib/myRotaryKey.c:402-441 | A reading is the specified step |
| `Rotary.RotaryKey.InitProcess` | ln882h-custom-imou/components/myKeyboardLib/myRotaryKey.c:166-186 | The first position is taken without a count |
| `Rotary.RotaryKey.StatusProcess` | ln882h-custom-imou/components/myKeyboardLib/myRotaryKey.c:197-318 | The four tables of steps are one step around the circle |
| `Rotary.RotaryKey.EventProc` | ln882h-custom-imou/components/myKeyboardLib/myRotaryKey.c:363-391 | Reporting and clearing is the specified step |
| `Rotary.RotaryKey.Loop` | ln882h-custom-imou/components/myKeyboardLib/myRotaryKey.c:496-503 | One more pass of the run |

## Left out

- ROM branches: AES, SHA-1, CRC-16 and CRC-32 dispatch to ROM in the shipped build; the C bodies beside them are modelled.
- `Sha1Code.Sha1Context.Update`: a piece has at most 0xFFFF_FFC0 bytes; the loop bound `i + 63` of the source is only meant for pieces below the 32-bit address space.
- `Sha1Code.Sha1Context.Final`: what the wiped context contains afterwards is not stated; the source demands an initialization before further use.
- `Sha1Code.HmacSha1`: the clearing of local copies is not modelled.
- `StubMalloc.StubHeap.Mfree`: assumes that the cells it clears lie in the table; for a block near the end of a long run the source writes on behind the table, and what lies there is not part of this model. The same holds for `MemFree`.
- `StubMalloc.StubHeap.MemRealloc`: takes a live pointer or null; what the copy reads outside the pool is an input.
- Keyboard matrix scan: the wiring and `myKeyboardMatrixKeyStatusGet` are hardware; each key's reading is an input of the scan.
- Floating-point curves: `DimmingCurve_CIE1976`, `DimmingCurve_DelayPowerOnOff`, `DimmingCurve_Exponential`, the default step function and `dimmingConvert.c`; the linear curve is modelled.
- Color conversion: the user's function is an input that succeeds or fails; it is taken not to edit the parameters it is shown.
- `LampTiming.FlashEndsExactly`: speaks of the flash without callback, since a callback may edit parameters and step time at will.
- `LampLevels.CallbackFlashRestores`: retriggers without a callback, or whose doubled count wraps to 0, are excluded: after them the parameters that the callback left can stay.
- `Dimming.LampLib.Loop`: mutex calls are left out; each call of the library is one step.
- More than one lamp: `MY_LIB_LAMP_MAX_NUM` is 1. `myLampStatusGet`, the curve getter and setter and the hook setters are plain field accesses.
- The byte sum `myCalcSumCheck` in `myCrc.c`.
- `AtLine.Next`: echo and busy messages on the terminal, and `prev_ch`, which only serves the echo, are left out; `ln_at_cmd_parse` and the commands are not part of this model. They are given the buffer in one step and leave arbitrary contents, which are an input.
- `AtServer.AtServer.FindEndMark`: for a full buffer the search ends with the buffer; what the C string search would read behind it is not modelled.
- AT data-transmit mode: compiled out.
- `MemPool.MemPool.Free`: takes the null pointer or an address in the memory of the pool; other memory is not part of this model. Interrupt masking is left out.
- `RingList.ForEachSafe`: the reverse safe macro is its mirror image and left out; so is the arithmetic from list field to entry.
- `Rotary.Events`: printing, the direction field and `isPressKeyReleaseRun` have no effect on the counts; the count is not bounded to 32 bits.
- Hex and MAC parsing, PBKDF2, key/value storage, FIFO, UART, GPIO, PWM and OTA: plumbing or easier than the above.
