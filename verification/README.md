# ssrlApps, verified

A Dafny model of the parts of ssrlApps (utilities for RTEMS) whose correctness is not
visible from one function at a time, with proofs of what they promise:

* **AltiVec contexts.** The vector registers stay with their owner and are saved and loaded
  lazily. `VecIsa` executes the assembly of the save and load routines, instruction by
  instruction; `VecHeap` is the aligned allocator with its back pointers; `VecSwitch` is the
  machine of threads, hooks, registers and memory, proved over every run to behave like a
  machine in which each thread has an MSR and vector registers of its own; `VecKernel` holds the hooks as
  methods that update the state in place.
* **DES and crypt.** `Fips46` is the standard (FIPS PUB 46-3, "Enciphering", "The Cipher
  Function f", Appendix 1) on bit sequences, with the salt of crypt(3); `FipsLaws` are its laws
  (inversion, complementation, cancellation of the inner permutations); `FipsTables` and
  `FipsBoxes` say what is known about its tables apart from their entries; `DesMasks`, `DesRound`
  and `DesKeys` show that OR-masks, packed S-boxes, the shifted E expansion and cumulative
  rotations compute the same; `DesInit`, `DesCipher` and `DesCrypt` are the loops and objects
  of the C code, proved against it. `Bits` holds 32-bit words.
* **Telnet.** `Telnet` is the byte decoder against the units of RFC 854, 855 and 1073;
  `TelnetPty` the five pseudo terminal slots.
* **Internet checksums.** `Checksum` proves the two implementations against the closed form of
  the one's complement sum (section 2 of RFC 1071) and against each other.
* **Traceroute.** `Traceroute` is the hop and retry loop with its linked list, over an
  arbitrary network.

`dafny verify dfyconfig.toml` checks everything.

## Conventions

* A 32-bit word of the cipher is a `seq<bool>` of length 32, most significant bit first; table
  indices are the values of bit fields. The hexadecimal masks of the code appear as ranges of
  bit positions. A two-dimensional table is one array, row after row.
* Vector memory is a map from word addresses to 32-bit words. `sound` in `VecSwitch.Machine` is
  cleared by what the hooks must never do (save or load with MSR_VE off or outside a live
  context, free something that is no block, overwrite an occupied slot); the invariant says that
  it stays set. `zeroed` and `orderly` in `VecIsa.Cpu` watch the order of clearing and storing.
* What the environment decides is a parameter: the answers of the heap, the memory a new block
  contains, the MSR of a new thread, the bytes a socket delivers, what the network replies.
* Assumptions about the kernel, taken from the build without `ALL_THREADS_ALTIVEC`: a switch
  hook and the register swap after it are one step, with no vector instruction in between (the
  caveat at `altivec/vec_context.c:650-656`); `vec_task_enable` is one step; threads that exist
  when the extension is installed have MSR_VE off and an empty slot.

## Where the code does something else than one would expect

Each of these is proved, with the exact condition and an input that shows it:

* `rtems_ping_cksum` and `ip_cksum` agree on a buffer if and only if the sum of its words stays
  below 2^32 (`Checksum.CksumsAgreeIff`); 65537 words are always safe, 65538 words of ones are
  not (`Checksum.CksumsDiffer`).
* A 255 inside a subnegotiation, doubled as RFC 855 demands, reaches the terminal as data and
  not the buffer (`Telnet.SubnegExact`). So in every run a NAWS message sets the size to the
  values sent if and only if it has no 255 in it (`Telnet.NawsSetsIff`,
  `TelnetPty.SessionNawsIff`).
* Opening a session does not reset `last_cr`. A session delivers its data unchanged if and only
  if not both the last text byte that the slot has read, in whatever earlier session, was CR and
  the new session's text starts with NUL (`TelnetPty.SessionTransparentIff`,
  `TelnetPty.LastCrOverRuns`). Text bytes are those read outside commands and other than 255.
  `TelnetPty.NulIsLost` is a run in which a NUL is lost although the session just before sent
  nothing at all.
* The key copy of crypt is the promised one if and only if among the first eight characters
  only characters 128 follow a character 128 (`DesCrypt.CopyKeyAsPromised`); this includes all
  7-bit keys. A character 128 followed by an A is copied as nothing
  (`DesCrypt.CopyKeyStopsEarly`).
* `vec_malloc` and `vec_calloc` return an area that fits its block if and only if the size
  computation does not wrap around (`VecHeap.AreaInsideIff`, `VecHeap.CallocInsideIff`); the
  largest size gets a block of 15 bytes (`VecHeap.LargestSizeTooSmall`).
* `do_traceroute` returns true if and only if it arrived or the last ten passes were all lost
  (`Traceroute.LoopEnds`); it does so on a network that sends nothing
  (`Traceroute.DeadNetworkSucceeds`). When it returns false it loses the nodes it has
  allocated: none exactly if it has found none (`Traceroute.DoTraceroute`,
  `Traceroute.RouterFails`).
* `extalloc` writes the back pointer before it looks at the answer of the allocator, so a
  refusal writes address 4; `VecHeap.RefusalKeeps` shows that no area is hit.

## Model

| member | source | states |
|---|---|---|
| VecIsa.SaveCorrect | altivec/vec_context.c:515-601 | for any registers and any prior buffer, save_vec_context leaves exactly the current context in the buffer, changes no other word, clears exactly the sixteen lines from byte 32 on, each once and before any store to it, and of the registers loses only v0 |
| VecIsa.AllGroups | altivec/vec_context.c:515-566 | S32VEC: every store goes to a line cleared before, no line is cleared twice, and all 32 registers end up in place |
| VecIsa.LoadCorrect | altivec/vec_context.c:519-624 | load_vec_context makes the registers, VSCR and VRSAVE those of the buffer, whatever lvewx leaves undefined, and writes no memory |
| VecIsa.SaveLoadRoundTrip | altivec/vec_context.c:576-624 | a load after a save restores all 32 registers, VSCR and VRSAVE in any processor state |
| VecIsa.SaveKeepsBackPointer | altivec/vec_context.c:125-127 | the back-pointer word survives a save; the cleared lines are bytes 32 to 543 |
| VecIsa.SavedReadsBack | altivec/vec_context.c:121-126 | the layout: a stored context reads back as itself |
| VecIsa.SavedElsewhere | altivec/vec_context.c:576-601 | saving into one buffer leaves a disjoint one alone |
| VecHeap.AlignedHeap.ExtAllocate | altivec/vec_context.c:236-255 | extalloc in place: block, alignment and back pointer as specified |
| VecHeap.AlignedHeap.ExtRelease | altivec/vec_context.c:257-266 | extfree in place: frees what the back pointer names |
| VecHeap.AlignedHeap.Malloc | altivec/vec_alloc.c:26-36 | vec_malloc in place, with null for size 0 or a refusal and a request modulo 2^32 |
| VecHeap.AlignedHeap.FreeArea | altivec/vec_alloc.c:38-42 | vec_free in place |
| VecHeap.AlignedHeap.Calloc | altivec/vec_alloc.c:44-51 | vec_calloc in place, with a product modulo 2^32 |
| VecHeap.ContextInside | altivec/vec_context.c:246-252 | an aligned context lies inside its own block and is aligned to a cache line |
| VecHeap.BlockIsTight | altivec/vec_context.c:246-247 | 572 bytes are just enough for an aligned context of 544 |
| VecHeap.ContextsApart | altivec/vec_context.c:246-266 | contexts of different blocks do not overlap |
| VecHeap.AreaInsideIff | altivec/vec_alloc.c:31-34 | area and back pointer fit the block, for every granted base, if and only if s + 16 does not wrap around |
| VecHeap.CallocInsideIff | altivec/vec_alloc.c:44-51 | the same for vec_calloc, product included |
| VecHeap.LargestSizeTooSmall | altivec/vec_alloc.c:26-36 | size 2^32 - 1 yields an area that exceeds its block, for every base |
| VecHeap.CallocIsZero | altivec/vec_alloc.c:44-51 | every byte of a vec_calloc area is zero, in a last partial word too |
| VecHeap.CallocTouchesOnly | altivec/vec_alloc.c:44-51 | vec_calloc changes no other byte than those and its back pointer |
| VecHeap.RefusalKeeps | altivec/vec_context.c:246-248 | a refused allocation, which writes address 4, damages no area |
| VecHeap.ReleaseFreesOrigin | altivec/vec_context.c:257-266 | freeing an area releases exactly the block it was carved from |
| VecHeap.RunsKeep | altivec/vec_alloc.c:26-51 | conservation over every run, from any good heap (the empty one is good, `InitialIsGood`), of allocations, in-bounds writes, initialisations, saves and frees: areas stay inside their own disjoint blocks, every free hits an allocated base, granted equals released plus held |
| VecHeap.EventIsolated | altivec/vec_context.c:364-369 | no event on one area changes a word of another |
| VecHeap.RunsIsolated | altivec/vec_alloc.c:26-51 | over every run that neither writes to nor frees an area, no word of it changes |
| VecSwitch.SwitchHookKeeps | altivec/vec_context.c:635-659 | the switch hook changes no thread's context, makes an heir with a context the owner, and puts the MSR back |
| VecSwitch.EnableRefines | altivec/vec_context.c:411-433 | vec_task_enable in all three outcomes keeps the invariant and gives only the executing thread a context and VE |
| VecSwitch.EnableResults | altivec/vec_context.c:412-420 | which of the three outcomes it returns, exactly |
| VecSwitch.FreshContext | altivec/vec_context.c:364-369 | a newly enabled thread owns the registers, with VSCR zero and VRSAVE all ones |
| VecSwitch.StartRefines | altivec/vec_context.c:436-475 | a started thread gets its environment's MSR with VE cleared and no context; no other thread's MSR or context changes |
| VecSwitch.RestartRefines | altivec/vec_context.c:436-484 | a restarted thread, the executing one included, runs with its environment's MSR with VE cleared and without a context; no other thread's MSR or context changes |
| VecSwitch.DeleteHookKeeps | altivec/vec_context.c:486-505 | the delete hook frees exactly the deletee's block, gives up its ownership and clears its VE |
| VecSwitch.DeleteRefines | altivec/vec_context.c:486-505 | deleting any thread, the executing one included, keeps the invariant and all other contexts |
| VecSwitch.StepRefines | altivec/vec_context.c:371-659 | every step keeps the invariant and is one step of the machine with private registers |
| VecSwitch.RunsRefine | altivec/vec_context.c:371-659 | over every run lazy switching refines private MSRs and vector files |
| VecSwitch.OnlyOwnOps | altivec/vec_context.c:635-659 | over every run a thread's context is what its own vector operations made of it |
| VecSwitch.ReachableStates | altivec/vec_context.c:412-505 | in every reachable state: VE exactly with a context, an executing thread with a context is the owner, the owner's context is live, contexts are distinct, nothing was ever unsound, and no block outlives the contexts |
| VecKernel.Kernel.SaveVecContext | altivec/vec_context.c:576-601 | running the assembly stores the context and nothing else |
| VecKernel.Kernel.LoadVecContext | altivec/vec_context.c:603-624 | running the assembly loads the context |
| VecKernel.Kernel.VecThreadSwitch | altivec/vec_context.c:635-659 | the hook in place: no context and no MSR bit changes |
| VecKernel.Kernel.VecTaskEnable | altivec/vec_context.c:411-433 | in place: outcome and state as specified, invariant kept |
| VecKernel.Kernel.VecThreadDelete | altivec/vec_context.c:486-505 | in place: as specified, coherence kept |
| VecKernel.Kernel.VecThreadRestart | altivec/vec_context.c:477-484 | in place: of the restarted thread VE is cleared, the other MSR bits stay, the slot is emptied |
| Fips46.DesWellFormed | telnetd/des.c:137-220 | the tables fit together: IP is invertible with the standard's printed inverse, PC-1 avoids parity bits, no table repeats a bit, P is onto, S-box entries have four bits |
| FipsTables.IpRule | telnetd/des.c:137-142 | the rule behind IP: even columns, then odd ones, from the bottom up |
| FipsTables.Pc1Rule | telnetd/des.c:144-149 | the rule behind PC-1 |
| FipsTables.Pc2Rule | telnetd/des.c:155-160 | where PC-2 puts each bit and which eight it leaves out |
| FipsTables.PRule | telnetd/des.c:217-220 | where P puts each bit |
| FipsBoxes.S1Digits | telnetd/des.c:166-215 | the entries of S1, row by row, as hexadecimal digits |
| FipsBoxes.S2Digits | telnetd/des.c:166-215 | the entries of S2, row by row, as hexadecimal digits |
| FipsBoxes.S3Digits | telnetd/des.c:166-215 | the entries of S3, row by row, as hexadecimal digits |
| FipsBoxes.S4Digits | telnetd/des.c:166-215 | the entries of S4, row by row, as hexadecimal digits |
| FipsBoxes.S5Digits | telnetd/des.c:166-215 | the entries of S5, row by row, as hexadecimal digits |
| FipsBoxes.S6Digits | telnetd/des.c:166-215 | the entries of S6, row by row, as hexadecimal digits |
| FipsBoxes.S7Digits | telnetd/des.c:166-215 | the entries of S7, row by row, as hexadecimal digits |
| FipsBoxes.S8Digits | telnetd/des.c:166-215 | the entries of S8, row by row, as hexadecimal digits |
| FipsBoxes.RowsArePermutations | telnetd/des.c:166-215 | every row of every S-box is a permutation of 0 to 15 |
| FipsBoxes.BoxesInOrder | telnetd/des.c:166-215 | which box is which, by the first entries of its rows |
| Fips46.UnsaltedCipher | telnetd/des.c:578-584 | with salt zero the salted f is the f of the standard |
| FipsLaws.InnerPermutationsCancel | telnetd/des.c:556-602 | n iterations with only the outer permutations equal n full encipherments |
| FipsLaws.EncipherSplit | telnetd/des.c:556-602 | m + n iterations are m followed by n |
| FipsLaws.RoundsRetrace | telnetd/des.c:563-601 | the rounds run backwards with reversed subkeys, whatever the round function |
| FipsLaws.DecipherTimes | telnetd/des.c:519-621 | n iterations with reversed subkeys undo n iterations, by induction on n |
| FipsLaws.CipherComplement | telnetd/des.c:567-592 | f does not see the complement of both R and the subkey |
| FipsLaws.ScheduleComplement | telnetd/des.c:457-504 | complementing the key complements all sixteen subkeys |
| DesMasks.Lookup8Bit | telnetd/des.c:337-385 | eight OR-mask lookups yield, bit for bit, the permutation whose inverse the table was built from |
| DesMasks.InvertedIsInverse | telnetd/des.c:312-331 | the inverse tables invert the given ones and mark missing positions |
| DesRound.BlockPermutation | telnetd/des.c:539-554 | the sixteen mask lookups are a 64-bit permutation of the block |
| DesRound.InitPermInverse | telnetd/des.c:312-315 | init_perm inverts IP, so its masks perform IP |
| DesRound.FinalPermInverse | telnetd/des.c:312-315 | final_perm inverts the final permutation, so its masks perform IP inverse |
| DesRound.LeftExpansion | telnetd/des.c:567-571 | the ANDed and shifted left half is E bits 0 to 23 |
| DesRound.RightExpansion | telnetd/des.c:573-577 | the right half is E bits 24 to 47 |
| DesRound.MixedBits | telnetd/des.c:582-584 | salting swaps bit i of the two E halves exactly where the salt bit is set, and the subkey is added |
| DesRound.ReorderIsRowColumn | telnetd/des.c:291-295 | the reordering of S-box inputs is the row and column rule of the standard |
| DesRound.MEntryBits | telnetd/des.c:301-306 | a packed byte holds the outputs of two neighbouring S-boxes |
| DesRound.RoundIsCipher | telnetd/des.c:563-592 | masks, shifts, packed S-boxes and P-box masks compute the salted cipher function for every R, salt and subkey |
| DesKeys.CumulativeRotation | telnetd/des.c:476-483 | one rotation by the cumulative shift is the iterated 28-bit rotation, in all rounds, shift 28 included |
| DesKeys.SubkeyIsStandard | telnetd/des.c:457-504 | both halves of every subkey are PC-2 of the rotated halves |
| DesKeys.SubkeyBitIsKeyBit | telnetd/des.c:457-504 | every subkey bit is one fixed key bit and no parity bit |
| DesKeys.TotalShiftIs | telnetd/des.c:151-153 | the cumulative shifts are 1, 2, 4, 6, 8, 10, 12, 14, 15, 17, 19, 21, 23, 25, 27, 28 |
| DesKeys.KeyBitRule | telnetd/des.c:457-504 | which key bit becomes which subkey bit, in numbers: PC-2, the rotation of the round, the rule of PC-1 |
| DesKeys.NinthSubkey | telnetd/des.c:457-504 | the ninth subkey of 133457799BBCDFF1, bit by bit |
| DesKeys.ParityBitsIgnored | telnetd/des.c:144-149 | keys that differ in the low bits of their bytes only have the same schedule |
| DesInit.Fixed.Init | telnetd/des.c:272-404 | the loops leave in every table exactly the entries that the proofs above use, once and for all |
| DesInit.StandardTables | telnetd/des.c:137-220 | the constant tables of the source are such tables |
| DesInit.InvertSBoxes | telnetd/des.c:291-295 | u_sbox is the reordered S-box |
| DesInit.PackSBoxes | telnetd/des.c:301-306 | m_sbox holds the packed pairs |
| DesInit.BlockMasks | telnetd/des.c:337-356 | the IP and FP mask tables, two rows of loops over eight bits |
| DesInit.KeyMasks | telnetd/des.c:357-385 | the PC-1 and PC-2 mask tables |
| DesInit.FillPMasks | telnetd/des.c:394-401 | the P-box masks |
| DesCipher.ReverseSalt | telnetd/des.c:412-424 | the loop reverses the 24 low salt bits |
| DesCipher.Context.constructor | telnetd/des.c:256-270 | a new context has zero salt and no key |
| DesCipher.Context.SetupSalt | telnetd/des.c:407-426 | with or without the cache the salt bits are those of the salt given |
| DesCipher.Context.SetKey | telnetd/des.c:429-506 | with or without the cache the key arrays hold the schedule of the key given, forwards and backwards; the zero key is never cached |
| DesCipher.Replay | telnetd/des.c:256-506 | after any sequence of calls on a new context, salt bits and subkeys are those of the last salt and key |
| DesCipher.ScheduleIsStandard | telnetd/des.c:485-503 | the en and de key arrays are the standard's schedule and its reversal |
| DesCipher.Context.DoDes | telnetd/des.c:509-623 | for every block, key, salt and count do_des returns the iterated (de)cipherment of the standard, and fails for count 0 |
| DesCipher.DesInverse | telnetd/des.c:519-623 | count -n undoes count n and the other way round |
| DesCipher.DesIterates | telnetd/des.c:556-621 | count m + n is count m followed by count n, for both signs |
| DesCipher.DesComplement | telnetd/des.c:457-601 | complementing key and block complements the output, for every salt and count |
| DesCrypt.AsciiRoundTrip | telnetd/des.c:238-254 | ascii_to_bin inverts the 64 symbols |
| DesCrypt.CopyKey | telnetd/des.c:720-725 | the key copy never reads past the terminator; its result in closed form |
| DesCrypt.CopyKeyAsPromised | telnetd/des.c:716-725 | the copy is "first eight characters, shifted, zero padded" exactly if no other character follows a character 128 |
| DesCrypt.CopyKeyStopsEarly | telnetd/des.c:716-725 | the string 128, 65 is copied as eight zeros, not as promised |
| DesCrypt.DecodeEncode | telnetd/des.c:803-819 | the eleven characters decode to the 64-bit result and two zero bits |
| DesCrypt.EncodeInjective | telnetd/des.c:803-819 | different results have different encodings |
| DesCrypt.AlphabetInOrder | telnetd/des.c:135 | the alphabet is the 64 symbols in the order of their codes |
| DesCrypt.CryptSaltSwaps | telnetd/des.c:780-784 | bits i and i + 24 of E trade places exactly if bit i of the first setting character's value is set, bit i - 6 of the second one's, never from 12 on |
| DesCrypt.DesCryptR | telnetd/des.c:702-825 | the output is the two setting characters, eleven symbols that decode to the zero block enciphered 25 times under the salt and key bits read off the characters, and the terminator; refused for a small buffer |
| DesCrypt.Crypt | telnetd/des.c:702-825 | the same with the constant tables of the source |
| Telnet.Step | telnetd/pty.c:229-345 | every byte keeps the mode in 0, 250 to 255, 250 * 256 + 255 and the buffer index in 0 to 16 |
| Telnet.UnitFed | telnetd/pty.c:229-345 | every unit of a client is understood: data, the reply that the option policy demands, window size, and nothing else |
| Telnet.UnitCodes | telnetd/pty.c:229-345 | what read_pty returns for every byte of every unit, negative codes included |
| Telnet.StreamTransparent | telnetd/pty.c:229-345 | any sequence of units yields exactly its data, exactly the replies due and the last announced window size |
| Telnet.BytesTransparent | telnetd/pty.c:229-345 | bytes sent as an NVT does, with commands in between, come out as they went in |
| Telnet.StreamTransparentIff | telnetd/pty.c:330-343 | with any last_cr, data are unchanged if and only if it does not swallow a NUL in front |
| Telnet.SubnegExact | telnetd/pty.c:234-299 | for any payload: the 255 bytes leak as data, the others fill the buffer; no leak if and only if there is none |
| Telnet.SubnegSize | telnetd/pty.c:186-204 | the window size after any subnegotiation, from the bytes sent and the rest of the buffer; only option 31 changes it |
| Telnet.NawsSets | telnetd/pty.c:186-204 | a full NAWS message without 255 sets width and height to the values sent, high byte first |
| Telnet.NawsSetsIff | telnetd/pty.c:186-299 | with any 255 doubled, a NAWS message sets the size to the values sent if and only if it has no 255 in it, for every decoder with a 255-free buffer |
| Telnet.BufferStaysFree | telnetd/pty.c:291-299 | no stream gets a 255 into the buffer |
| Telnet.LastCrIs | telnetd/pty.c:229-345 | last_cr in closed form: whether the last byte read in mode 0 and other than 255 was CR |
| Telnet.InsideSubneg | telnetd/pty.c:291-299 | any stream that ends inside a subnegotiation entered it at an IAC SB and has its first sixteen payload bytes other than 255 since then in the buffer |
| TelnetPty.ReadPty | telnetd/pty.c:229-345 | the branches of read_pty, in place, compute the step |
| TelnetPty.Ptys.PollRead | telnetd/pty.c:206-227 | one read on a slot: error, end of stream (read position of the line past its fill count, VEOF returned) or byte; other slots untouched |
| TelnetPty.Ptys.GetPty | telnetd/pty.c:145-162 | the lowest free slot gets the socket; without one it is closed |
| TelnetPty.Ptys.PollInitialize | telnetd/pty.c:370-387 | opening resets the decoder except last_cr and the buffer |
| TelnetPty.Ptys.Shutdown | telnetd/pty.c:389-400 | closing frees the slot and closes its socket |
| TelnetPty.SocketsConserved | telnetd/pty.c:145-400 | over every run each accepted socket is in a slot or closed, exactly as often as accepted |
| TelnetPty.SessionsIsolated | telnetd/pty.c:206-400 | what a slot decodes and delivers depends on its own bytes alone, over every interleaving |
| TelnetPty.LastCrOverRuns | telnetd/pty.c:330-387 | over every run last_cr of a slot is set if and only if the last text byte of its whole past was CR |
| TelnetPty.RunsFree | telnetd/pty.c:291-387 | over every run no subnegotiation buffer contains a 255 |
| TelnetPty.SessionTransparentIff | telnetd/pty.c:206-387 | after any past a session delivers its data unchanged if and only if not both the last text byte of the slot's past was CR and the session's text starts with NUL |
| TelnetPty.SessionNawsIff | telnetd/pty.c:186-299 | after any past a NAWS message sets the size to the values sent if and only if it has no 255 in it |
| TelnetPty.NulIsLost | telnetd/pty.c:330-387 | a run in which a session loses its NUL, with a silent session before it |
| Checksum.IpCksum | miscUtils/traceroute.c:81-100 | the complement of the total modulo 65535, with zero only for zero |
| Checksum.OnesSumNorm | miscUtils/traceroute.c:74-79 | ones_sum adds totals exactly |
| Checksum.PingCksum | miscUtils/icmpping.c:63-81 | the same of the total modulo 2^32 |
| Checksum.TwoFolds | miscUtils/icmpping.c:78-80 | two folds reduce every 32-bit accumulator |
| Checksum.CksumsAgreeIff | miscUtils/icmpping.c:63-81 | both checksums agree if and only if the total is below 2^32 |
| Checksum.CksumsAgree | miscUtils/icmpping.c:63-81 | they agree up to 65537 words |
| Checksum.CksumsDiffer | miscUtils/icmpping.c:63-81 | they differ on 65538 words of ones |
| Checksum.StoredVerifies | miscUtils/traceroute.c:339-359 | storing the checksum in the zeroed word, wherever it is, makes the whole verify to 0 |
| Checksum.ChangeDetectedIff | miscUtils/traceroute.c:81-100 | which changes of one word a verified buffer survives, exactly |
| Checksum.ByteOrderIrrelevant | miscUtils/traceroute.c:81-100 | swapping the bytes of every word swaps the bytes of the result |
| Checksum.HostsAgree | miscUtils/traceroute.c:81-100 | big- and little-endian hosts store the same two bytes |
| Traceroute.Receive | miscUtils/traceroute.c:208-233 | the wait ends at the first packet that is ours or the failure before it |
| Traceroute.FoundIff | miscUtils/traceroute.c:226-250 | a pass finds a node exactly if, before any failure, it receives a packet of at least 28 bytes of type 0 or 11 or with identifier 5930; the node is the sender of the first such packet |
| Traceroute.LostIff | miscUtils/traceroute.c:195-225 | a pass is lost exactly if the send fails or an error other than a timeout comes first |
| Traceroute.ArrivedIff | miscUtils/traceroute.c:250-253 | it arrives exactly if that packet has code 0 and comes from the destination |
| Traceroute.DoTraceroute | miscUtils/traceroute.c:174-267 | on success an acyclic list of exactly the nodes found, of length hops; on failure no result, and exactly the nodes found are lost; ends as the closed form says |
| Traceroute.LoopEnds | miscUtils/traceroute.c:180-267 | for any max_hops: the loop goes on until it arrives, ten passes in a row are lost or the hops are used up, and no further; at most 10 * max_hops sends and max_hops nodes; true exactly in the first two cases |
| Traceroute.DeadNetworkSucceeds | miscUtils/traceroute.c:182-203 | on a network that sends nothing, true is returned with no node found |
| Traceroute.RouterFails | miscUtils/traceroute.c:254-267 | a network on which a failing run has found a node |

## Left out

- Cache hints (`dcbt`, `dst`, `dssall`), CPU identification, stack alignment and probing, and
  registration of the AltiVec extension: no effect on the modelled state. So
  `VecKernel.Kernel.VecTaskEnable` starts at the test of MSR_VE, after the checks that return -1
  without changing anything.
- The module finalizer of vec_context.c and the `ALL_THREADS_ALTIVEC` build.
- vec_realloc: its copy path treats an aligned area as an unaligned block.
- Byte-wise writes by clients of the heap: they write whole words.
- VecKernel.Kernel.VecThreadRestart: the kernel's own part of a restart (loading the environment,
  continuing a thread that restarts itself) is in `VecSwitch.RestartThread`.
- DesInit.Fixed.Init: the table storage exists from the beginning; a failing malloc is not
  modelled.
- DesCipher.Context.DoDes: integers are unbounded, so the count whose negation overflows a C int
  is not singled out.
- The variants of des.c that are not compiled.
- Device names, ownership and terminal attributes of the pseudo terminals.
- TelnetPty.Ptys.GetPty: the receive timeout set on the socket is left out.
- Convergence of option negotiation: WONT is answered by WONT, so there is none to claim.
- Checksum.PingCksum: words are big-endian, as on the targets; on a little-endian host the code
  would take an odd last byte from behind the buffer.
- Traceroute.DoTraceroute: the ttl and the frame contents do not appear, since the network is
  arbitrary; waits are assumed to end.
- telnetd.c, check_passwd.c, genpw.c, ttcp.c, memUtils.c, the monitor and the other utilities:
  input, output and kernel calls, or simple arithmetic only.
