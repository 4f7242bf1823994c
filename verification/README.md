# Verified models of the SIP Express Router core

The SIP Express Router edits messages lazily, interprets a routing script for each of them, and
caches what it learns from DNS.  This project models the parts of its core in which separately
written pieces of C must agree with each other, and proves that they do, or exactly when they do.

* **Lumps** (`LumpModel`, `LumpTheorems`, `LumpOutput`, `LumpList`, `SipMessage`, `ContentLength`,
  `LumpCopy`). A message is edited by a list of deletions and anchors with chains of insertions.
  One pass measures the result and repairs overlapping deletions, another writes it. Both passes
  are proved against one tagged rendering, from which the lengths, the meaning of the output and
  the Content-Length follow.
* **Local replies** (`SipReply`). Two passes again: a length, then the text.
* **Scripts** (`Script`, `ScriptMachine`, `ScriptTheorems`). The interpreter with global flags, a
  jump and a level counter computes a structured semantics of return, exit and nested routes.
* **DNS cache** (`CList`, `DnsHash`, `DnsEntries`, `DnsCache`, `DnsRecords`, `DnsReferences`,
  `DnsRelated`, `DnsRefTheorems`, `DnsSrv`). Hash buckets, last-used list and memory counter; lookups
  that follow CNAMEs; entries made from an answer, and the list that links them; reference counts
  under any interleaving of processes; failover through SRV records and addresses.
* **Streaming MD5** (`Md5`), **substitution templates** (`Subst`), **addresses as text** (`IpText`),
  **q values and Contact headers** (`Qvalue`, `Dset`).
* Shared helpers: `Wrappers`, `Words`, `Sequences`, `Buffers`, `Decimal`, `SipText`, `DnsTypes`.

Objects that the source changes in place are classes whose methods have loops and are proved
against functions of the old state; what is pure in the source is a function. Memory running out,
parse failures, the clock, regular-expression matching, the MD5 block transform and the results of
modules and DNS lookups are parameters. Unsigned 32-bit and one-byte arithmetic is written out where
it can wrap. The modelled build has IPv6, TCP, the DNS cache and DNS failover switched on and
compression switched off. `dafny verify dfyconfig.toml` checks the whole project.

Where the code differs from what its comments say, the model follows the code:

* `process_lumps` ignores body lumps that start inside a header deletion, although both lists were
  counted. `LumpOutput.BodyLumpsApplied` says exactly when; the text is then shorter than computed
  (`PassesMayDisagree`) or longer (`PassesMayOverrun`).
* `build_req_buf_from_sip_req` also ignores every lump that starts in front of the end of the URI
  it replaces, although all are counted (`SipMessage.RequestLength`, `RequestMayDisagree`).
* The number `clen_builder` prints counts text of body lumps that ends up in front of the body
  (`ContentLength.ClenValueMayBeWrong`) and knows nothing of deletions that were filed with the
  header lumps and reach into the body (`DeletedBodyIsCounted`). `ClenValueIsBodyLength` is the
  exact account for all lists, 32-bit wrap-around included.
* A return left under way by an operand of a condition cuts the next operand short
  (`ScriptTheorems.PendingReturnCutsShort`, `UnguardedScriptIsCutShort`).
* `dns_entry_get_rr` does not step its counter over marked records, so a record behind a marked one
  comes up twice (`DnsSrv.YieldsGoodIffMarkedLast`, `MarkedFirstRepeats`). Nothing in the repository
  marks a record yet: `err_flags` of a record is read and never set.
* `dns_cache_mk_rd_entry` loses the records it took when no memory is left
  (`DnsRecords.MkRdEntry`), and `dns_cache_clean` looks at one entry even when told to look at none.
* The comments on `dns_cache_clean` and `dns_cache_free_mem` swap the meaning of `expired_only`.
* A reply with a new tag is measured five characters too long when the To header of the request
  holds an empty tag that the parser points to: `;tag=;` followed by a parameter with a value, or a
  quoted tag of one character, because the parser leaves out the last character of a quoted value
  (`SipReply.FilledExactlyIff`, `EmptyTagIsMismeasured`).
* `dns_get_related` links the alias of an SRV target anew after the address behind it was linked to
  it, so that the address leaves the list and is neither stored nor freed
  (`DnsRelated.LostIffAliasFollowed`, `DnsRefTheorems.QuietMeansFreed`, `AddressBehindAliasLeaks`).
* `dns_cache_mk_rd_entry` keeps only the last of several NAPTR records (`DnsRecords.MkRdEntry`,
  `NaptrFits`).
* `append_branch` checks the URI it is given, but not the current one it takes when none is given
  (`Dset.DestinationSet.Append`).
* `srv_no` and `ip_no` are one byte: a walk over an entry with a good record at position 255 or
  behind never ends (`DnsSrv.CounterMeetsEnd`, `SrvHandle.Rounds`).
* The block loop of `MD5Update` never ends when the bytes already buffered and the input are
  together 2^32 or more (`Md5.LoopEndsIffFits`).
* The global loop of `subst_run` never ends once a match behind the first one ends where it was
  looked for, as an empty match does (`Subst.LoopEndsIffMovesOn`).
* The check of `dns_cache_add` against the maximum is made before the lock is taken
  (`DnsCache.Cache.Append` holds no bound), that of `dns_cache_add_unsafe` under it (`AddIfFits`).
* `print_dset` writes one blank more than its length says (`Dset.DestinationSet.Print`).

## Model

| member | source | states |
|---|---|---|
| LumpModel.SubstText | openimscore/ser_ims/ser_ims_modified/ser_ims/msg_translator.c:901-1134 | The text the writing pass produces for a substitution lump has exactly the length the length pass computes for it, for every substitution, socket, protocol and address family. |
| LumpModel.ChainLenAgrees | openimscore/ser_ims/ser_ims_modified/ser_ims/msg_translator.c:520-568 | For every chain, false conditions included, the length counted is the length written. |
| LumpModel.EntryLenAgrees | openimscore/ser_ims/ser_ims_modified/ser_ims/msg_translator.c:740-823 | The same for a lump with both of its chains. |
| LumpTheorems.ClipRemovesOverlaps | openimscore/ser_ims/ser_ims_modified/ser_ims/msg_translator.c:776-795 | After the length pass the writing pass meets no overlapped lump, on any list, and ends where the length pass ended. |
| LumpTheorems.ClipIsIdempotent | openimscore/ser_ims/ser_ims_modified/ser_ims/msg_translator.c:776-795 | A second length pass changes no lump and computes the same difference. |
| LumpTheorems.ClipOffsets | openimscore/ser_ims/ser_ims_modified/ser_ims/msg_translator.c:776-795 | Clipping leaves the deletions and anchors sorted and moves none of them in front of the start. |
| LumpTheorems.RenderInserts | openimscore/ser_ims/ser_ims_modified/ser_ims/msg_translator.c:1155-1309 | The inserted characters are the texts of the lumps in list order, `before` chains first, in link order. |
| LumpTheorems.RenderKeepsUncovered | openimscore/ser_ims/ser_ims_modified/ser_ims/msg_translator.c:1233-1277 | The original bytes that survive are exactly those that no deletion of the unclipped list covers, in order. |
| LumpList.LumpsLen | openimscore/ser_ims/ser_ims_modified/ser_ims/msg_translator.c:520-826 | The pass over lump objects returns the specified difference and repairs the lumps in place as specified; chains are untouched. |
| LumpList.ProcessLumps | openimscore/ser_ims/ser_ims_modified/ser_ims/msg_translator.c:833-1312 | The pass over lump objects writes exactly the rendering at the given offset, moves both offsets on, and changes no other byte of the buffer. |
| LumpOutput.BodyLumpsApplied | openimscore/ser_ims/ser_ims_modified/ser_ims/msg_translator.c:2344-2346 | The writing pass ignores no body lump if and only if no header lump reaches past the start of a body lump. |
| LumpOutput.OutputLength | openimscore/ser_ims/ser_ims_modified/ser_ims/msg_translator.c:2299-2353 | For all lists: bytes written = message length + both computed differences - what the ignored body lumps stood for. |
| LumpOutput.PassesAgree | openimscore/ser_ims/ser_ims_modified/ser_ims/msg_translator.c:2310-2353 | For separate lists the buffer is filled exactly, neither short nor over. |
| LumpOutput.PassesMayDisagree | openimscore/ser_ims/ser_ims_modified/ser_ims/msg_translator.c:2344-2346 | A header deletion over a body anchor, as a concrete case in which the two passes differ. |
| LumpOutput.PassesMayOverrun | openimscore/ser_ims/ser_ims_modified/ser_ims/msg_translator.c:2344-2346 | The other way round: a body deletion under a header deletion writes four bytes more than were computed. |
| LumpOutput.OutputIsOneRendering | openimscore/ser_ims/ser_ims_modified/ser_ims/msg_translator.c:2344-2353 | Rendering header lumps, body lumps and the tail is rendering the concatenated list. |
| LumpOutput.OutputMeaning | openimscore/ser_ims/ser_ims_modified/ser_ims/msg_translator.c:2299-2353 | The finished message is the original minus the deletions plus the insertions: which original bytes survive, and which text was put in. |
| LumpOutput.InsertionPlace | openimscore/ser_ims/ser_ims_modified/ser_ims/msg_translator.c:1233-1309 | The text of a lump stands at its own offset: in front of it are exactly the surviving bytes below the offset, behind it exactly those from its end on. |
| ContentLength.OutputSplits | openimscore/ser_ims/ser_ims_modified/ser_ims/msg_translator.c:2340-2353 | For all header and body lists, wherever their lumps start, the finished message is what is written in front of the first lump that starts in the body, then the body. |
| ContentLength.ClenValueIsBodyLength | openimscore/ser_ims/ser_ims_modified/ser_ims/msg_translator.c:400-445 | For all header and body lists: number printed = body bytes written + what body lumps change in front of the body + what ignored body lumps stood for - the length change that header lumps make at or behind the start of the body, modulo 2^32. So it is right if and only if these cancel and the body is shorter than 2^32. |
| ContentLength.HeadersEndBeforeBody | openimscore/ser_ims/ser_ims_modified/ser_ims/msg_translator.c:400-445 | When every header lump ends in front of the body and every placed body lump starts in it, only text lumps in front of the first anchor or deletion of the body list make it wrong. |
| ContentLength.ContentLengthCorrect | openimscore/ser_ims/ser_ims_modified/ser_ims/msg_translator.c:1318-1412 | When a value is inserted, the finished message is text, the value, the rest of the headers, and the body; the value is the number of body bytes under exactly that condition. With the body lumps in the body, the text around it is what the header lumps leave of the headers. |
| ContentLength.ClenValueMayBeWrong | openimscore/ser_ims/ser_ims_modified/ser_ims/msg_translator.c:400-445 | A body list for which the number is too large by one. |
| ContentLength.DeletedBodyIsCounted | openimscore/ser_ims/ser_ims_modified/ser_ims/data_lump.c:297-302 | A deletion filed with the header lumps because it starts at the end of the headers, as the one in modules/mgcf/mgcf.c:523: it takes the body along, and the number still counts all of it. |
| Decimal.Int2Str | openimscore/ser_ims/ser_ims_modified/ser_ims/ut.h:250-268 | The digits filled in from the right are the decimal text of the number, most significant first. |
| SipMessage.InsertKeepsSorted | openimscore/ser_ims/ser_ims_modified/ser_ims/data_lump.c:303-310 | Filing a deletion or anchor by its offset keeps the list sorted. |
| SipMessage.FindPlace | openimscore/ser_ims/ser_ims_modified/ser_ims/data_lump.c:303-310 | The search loop stops at the specified place. |
| SipMessage.SipMsg.DelLump | openimscore/ser_ims/ser_ims_modified/ser_ims/data_lump.c:265-312 | The deletion is filed at its place in the header list or the body list, chosen by its offset; both lists stay well formed, and nothing changes without memory. |
| SipMessage.SipMsg.AnchorLump | openimscore/ser_ims/ser_ims_modified/ser_ims/data_lump.c:321-369 | The same for an anchor. |
| SipMessage.AppendNewLump | openimscore/ser_ims/ser_ims_modified/ser_ims/data_lump.c:59-79 | The new text lump is the last of the list and the list stays well formed. |
| SipMessage.InsertNewLump | openimscore/ser_ims/ser_ims_modified/ser_ims/data_lump.c:86-106 | The new text lump is the first of the list and the list stays well formed. |
| SipMessage.InsertAfter | openimscore/ser_ims/ser_ims_modified/ser_ims/data_lump.c:110-131 | The new link stands directly behind the lump or link it was given, so its text is written between the texts in front of that place and those behind it; nothing of it behind a condition that fails. |
| SipMessage.InsertBefore | openimscore/ser_ims/ser_ims_modified/ser_ims/data_lump.c:135-156 | The same in a `before` chain: a link put directly at the lump is the one written first of the chain. |
| SipMessage.SipMsg.AdjustClen | openimscore/ser_ims/ser_ims_modified/ser_ims/msg_translator.c:1318-1412 | Exactly when a value is needed, one lump with the right text is filed in the header list; the body list is untouched; it fails exactly when parsing, the search for the body or memory does. |
| SipMessage.SipMsg.BuildAll | openimscore/ser_ims/ser_ims_modified/ser_ims/msg_translator.c:2299-2353 | For all lists, separate or not, the text written is the specified output of the two lists as measured, with the Content-Length lump if one was asked for, and differs from the 32-bit length it was given room for by what ignored body lumps stood for; the lists are left clipped; it fails exactly when adjust_clen does or the buffer of a non-empty message cannot be allocated. |
| SipMessage.SipMsg.BuiltExactly | openimscore/ser_ims/ser_ims_modified/ser_ims/msg_translator.c:2310-2353 | For separate lists the text fills its block exactly. |
| SipMessage.BuiltContentLength | openimscore/ser_ims/ser_ims_modified/ser_ims/msg_translator.c:2310-2353 | The message that build_all writes with the Content-Length that adjust_clen filed: where the number stands, and that it is the number of body bytes if and only if nothing is miscounted in the lists adjust_clen was given. |
| SipMessage.RequestLength | openimscore/ser_ims/ser_ims_modified/ser_ims/msg_translator.c:1573-1612 | For all lists the request with a new URI is shorter than the length returned with it by exactly what ignored header and body lumps stood for. |
| SipMessage.RequestLumpsApplied | openimscore/ser_ims/ser_ims_modified/ser_ims/msg_translator.c:1573-1612 | No lump is ignored if and only if no lump starts in front of the end of the URI and the lists are separate. |
| SipMessage.RequestFilledExactly | openimscore/ser_ims/ser_ims_modified/ser_ims/msg_translator.c:1573-1612 | With sorted, separate lists whose lumps start behind the URI the request has exactly the length returned with it. |
| SipMessage.RequestMayDisagree | openimscore/ser_ims/ser_ims_modified/ser_ims/msg_translator.c:1573-1612 | An anchor on the first line, whose text is counted and never written. |
| SipMessage.RequestOutputIsOutput | openimscore/ser_ims/ser_ims_modified/ser_ims/msg_translator.c:1573-1612 | When no header lump starts in front of the end of the URI, the request is the output for one more deletion with one more insertion, so all that is proved of the output holds of it. |
| SipReply.ReplyLumps.Add | openimscore/ser_ims/ser_ims_modified/ser_ims/data_lump_rpl.c:46-107 | Adds at the end exactly when the flags name one kind, the text is not empty, memory is there and no second body would appear; otherwise nothing changes; every lump stays exactly one of header and body, with at most one body. |
| SipReply.ReplyLumps.Unlink | openimscore/ser_ims/ser_ims_modified/ser_ims/data_lump_rpl.c:122-141 | Takes out exactly the given lump and keeps the invariant. |
| SipReply.ReplyLumps.DelNonShm | openimscore/ser_ims/ser_ims_modified/ser_ims/data_lump_rpl.c:143-163 | Keeps exactly the lumps in shared memory, in order. |
| SipReply.Measure | openimscore/ser_ims/ser_ims_modified/ser_ims/msg_translator.c:1753-1835 | The first pass computes the specified length and finds the body, for every header list. |
| SipReply.Build | openimscore/ser_ims/ser_ims_modified/ser_ims/msg_translator.c:1837-1990 | The second pass writes exactly the reply text into a buffer of the computed size, and returns the specified bookmark. |
| SipReply.BookmarkLeads | openimscore/ser_ims/ser_ims_modified/ser_ims/msg_translator.c:1905-1940 | The bookmark names the tag of the last To header as it stands in the reply, new, old or empty; without a To header it stays unset. |
| SipReply.LengthsAgree | openimscore/ser_ims/ser_ims_modified/ser_ims/msg_translator.c:1753-1990 | For every header list, rport, received, tag and lump combination the computed length exceeds the written one by five if an empty tag is to be replaced, and by nothing else. |
| SipReply.FilledExactlyIff | openimscore/ser_ims/ser_ims_modified/ser_ims/msg_translator.c:1783-1791 | The two lengths agree if and only if no new tag is wanted, or the tag pointer of the To header is not set, or its tag is not empty. |
| SipReply.EmptyTagIsMismeasured | openimscore/ser_ims/ser_ims_modified/ser_ims/parser/parse_to.c:236-274 | Two To headers for which the parser leaves a pointer to an empty tag, as concrete cases of disagreement: `;tag=;` with a last parameter that has a value, and a quoted tag of one character. |
| LumpCopy.DupLumpList | openimscore/ser_ims/ser_ims_modified/ser_ims/data_lump.c:443-509 | With enough memory the copy has the operations of the original and no node in common with it or with anything else in use; without, a null pointer is returned and every node already made was freed. |
| LumpCopy.CopyReadsTheSame | openimscore/ser_ims/ser_ims_modified/ser_ims/data_lump.c:443-498 | A copy is the same list of entries to the length pass and the writing pass. |
| LumpCopy.FreeShallow | openimscore/ser_ims/ser_ims_modified/ser_ims/data_lump.c:425-440 | Frees the lump and both of its chains, each node once. |
| LumpCopy.FreeDupedList | openimscore/ser_ims/ser_ims_modified/ser_ims/data_lump.c:513-544 | Frees every node of the list and exactly the texts of lumps that were added after the copying. |
| LumpCopy.CopyOwnsNoText | openimscore/ser_ims/ser_ims_modified/ser_ims/data_lump.c:513-544 | Freeing an untouched copy frees no text. |
| LumpCopy.DupThenFree | openimscore/ser_ims/ser_ims_modified/ser_ims/data_lump.c:503-544 | Copying and freeing leaves the memory as it was, whether the copying succeeded or not. |
| ScriptMachine.Interpreter.RunActions | openimscore/ser_ims/ser_ims_modified/ser_ims/action.c:887-946 | The loop with flags, jump and level counter computes the structured meaning of the block; the level counter is back at its entry value; it terminates for every script, by the lexicographic measure levels left, then size of the rest. |
| ScriptMachine.Interpreter.DoAction | openimscore/ser_ims/ser_ims_modified/ser_ims/action.c:99-130 | Each action does what its structured meaning says; an exit has set its flag and an error at the level limit is an ordinary result. Also action.c:425-442, 649-690. |
| ScriptMachine.Interpreter.EvalExpr | openimscore/ser_ims/ser_ims_modified/ser_ims/route.c:1149-1183 | Conditions, with actions used as operands, mean what the structured semantics says, and short circuits are taken. Also route.c:1049-1053. |
| ScriptTheorems.ReturnLeavesBlocks | openimscore/ser_ims/ser_ims_modified/ser_ims/action.c:887-946 | A return that is reached ends every block around it with its code, whatever else they contain. |
| ScriptTheorems.ReturnEndsAtRoute | openimscore/ser_ims/ser_ims_modified/ser_ims/action.c:425-442 | It ends no more than its route: the route() call gives its code and the caller goes on. |
| ScriptTheorems.ExitLeavesEverything | openimscore/ser_ims/ser_ims_modified/ser_ims/action.c:887-946 | An exit that is reached ends the whole run with its code, through blocks, conditions and route() calls. |
| ScriptTheorems.ExitLeavesCondition | openimscore/ser_ims/ser_ims_modified/ser_ims/route.c:1149-1183 | The same for an exit inside a condition. |
| ScriptTheorems.LimitEntersNothing | openimscore/ser_ims/ser_ims_modified/ser_ims/action.c:895-906 | At the level limit no route, branch or command is entered: a block runs the same whatever the routes hold, and goes on behind the failed calls. |
| ScriptTheorems.SelfCallUnwinds | openimscore/ser_ims/ser_ims_modified/ser_ims/action.c:895-929 | A route that calls itself is entered once for each level left; what stands behind the call happens exactly that often. |
| ScriptTheorems.GuardedScriptsRunCleanly | openimscore/ser_ims/ser_ims_modified/ser_ims/route.c:1049-1053 | If no operand that may return is followed by one that can be cut short (an operand with actions behind a first one that neither ends the operand nor branches, or a route() call), the interpreter gives the run in which a return inside a condition just ends its operand, for every world. |
| ScriptTheorems.PendingReturnCutsShort | openimscore/ser_ims/ser_ims_modified/ser_ims/action.c:914-929 | Otherwise a return left under way cuts the next operand short behind its first action. |
| ScriptTheorems.CutShows | openimscore/ser_ims/ser_ims_modified/ser_ims/action.c:914-929 | That always shows: an operand whose first action goes on to a second one that leaves an event never fares the same with a return under way as without. |
| ScriptTheorems.PlainCommandSurvivesIff | openimscore/ser_ims/ser_ims_modified/ser_ims/action.c:914-929 | For operands of plain actions the guard is exact: such an operand fares the same with a return under way if and only if it has at most one action. |
| ScriptTheorems.UnguardedScriptIsCutShort | openimscore/ser_ims/ser_ims_modified/ser_ims/route.c:1149-1183 | A concrete script on which the two runs differ. |
| DnsRefTheorems.CountersAreExact | openimscore/ser_ims/ser_ims_modified/ser_ims/dns_cache.c:158-164 | In every interleaving of lookups, releases, adds, removals, copies and hand-overs by any number of processes, an entry's counter is one if it is in the table plus its outstanding references; a freed entry has neither. |
| DnsRefTheorems.RunTouchesOnlyLive | openimscore/ser_ims/ser_ims_modified/ser_ims/dns_cache.c:649-677 | No step of any process reads or writes an entry after it was freed. Also dns_cache.c:350-370, 596-608, 1450-1460. |
| DnsRefTheorems.FreedOnce | openimscore/ser_ims/ser_ims_modified/ser_ims/dns_cache.c:137-164 | Two frees in one run are frees of two entries. |
| DnsRefTheorems.FreedForever | openimscore/ser_ims/ser_ims_modified/ser_ims/dns_cache.c:137-164 | A freed entry stays freed. |
| DnsRefTheorems.QuietMeansFreed | openimscore/ser_ims/ser_ims_modified/ser_ims/dns_cache.c:1450-1460 | When all processes are outside the cache code, an entry is freed if and only if it is neither in the table nor referenced nor one of those that dns_get_related forgot. |
| DnsRefTheorems.ForgottenForever | openimscore/ser_ims/ser_ims_modified/ser_ims/dns_cache.c:1329-1343 | A forgotten entry is never freed: after every further run it is allocated, unlisted and unreferenced. |
| DnsRefTheorems.AddressBehindAliasLeaks | openimscore/ser_ims/ser_ims_modified/ser_ims/dns_cache.c:1329-1343 | A run that leaks: an SRV entry, the alias of its target and the address behind the alias come in one answer, and the address is still allocated when all is done. |
| DnsRefTheorems.OneProcessInside | openimscore/ser_ims/ser_ims_modified/ser_ims/dns_cache.c:596-608 | Two processes are never inside the hash lock at once. |
| DnsRefTheorems.StepKeepsInv | openimscore/ser_ims/ser_ims_modified/ser_ims/dns_cache.h:159-195 | Every atomic step of the code keeps counters, ownership and lock together, loses no entry but the forgotten ones, and those for good. |
| DnsRelated.GetRelated | openimscore/ser_ims/ser_ims_modified/ser_ims/dns_cache.c:1305-1375 | The recursion over aliases and SRV targets leaves a ring that holds exactly the specified entries, in order, each linked both ways; gives the entry that was asked for and the records not used; and the entries made and not on the ring are exactly those specified as lost. It terminates. |
| DnsRelated.LostIffAliasFollowed | openimscore/ser_ims/ser_ims_modified/ser_ims/dns_cache.c:1325-1346 | From an SRV entry on, something is lost if and only if the answer holds an alias for some target and an entry for the name the alias leads to. |
| DnsRelated.AddressesKeepAll | openimscore/ser_ims/ser_ims_modified/ser_ims/dns_cache.c:1351-1374 | When addresses are asked for nothing is lost, whatever aliases are followed. |
| DnsRelated.FoundOrAliases | openimscore/ser_ims/ser_ims_modified/ser_ims/dns_cache.c:1351-1374 | The entry found is on the list and of the type asked for; without one the list is a chain of aliases and nothing is lost. |
| DnsRelated.AddressBehindAlias | openimscore/ser_ims/ser_ims_modified/ser_ims/dns_cache.c:1329-1343 | The smallest case: the alias of an SRV target stays on the list, and the address it leads to is lost. |
| CList.Init | openimscore/ser_ims/ser_ims_modified/ser_ims/clist.h:39-43 | A node whose links lead to itself is the empty ring. |
| CList.Append | openimscore/ser_ims/ser_ims_modified/ser_ims/clist.h:102-103 | Appending to a ring adds the element at its end and keeps all links two-way. |
| CList.AppendSublist | openimscore/ser_ims/ser_ims_modified/ser_ims/clist.h:70-76 | Appending part of another ring adds its elements at the end, in order, with links both ways. |
| CList.Insert | openimscore/ser_ims/ser_ims_modified/ser_ims/clist.h:96-97 | Inserting adds it at the front. |
| CList.Remove | openimscore/ser_ims/ser_ims_modified/ser_ims/clist.h:87-91 | Removing takes out exactly that element and leaves its own links as they were. |
| CList.ForEachSafe | openimscore/ser_ims/ser_ims_modified/ser_ims/clist.h:117-121 | The safe iteration visits every element once, in order, while its body removes elements; the others stay in order. |
| DnsHash.UpdateStr | openimscore/ser_ims/ser_ims_modified/ser_ims/hashes.h:58-71 | The two loops of the macro compute the hash fold over whole words and then the trailing bytes. |
| DnsHash.HashNo | openimscore/ser_ims/ser_ims_modified/ser_ims/hashes.h:197-207 | The hash with its final mixing, cut down to a bucket number, is the specified bucket. |
| DnsHash.MatchesIffSameUpToCase | openimscore/ser_ims/ser_ims_modified/ser_ims/dns_cache.c:404-405 | On names without a zero byte the comparison of the lookup is equality up to ASCII case. |
| DnsHash.SameBucket | openimscore/ser_ims/ser_ims_modified/ser_ims/hashes.h:197-207 | Names equal up to ASCII case share a bucket, for all bytes, signed chars and 32-bit wrap-around included. |
| DnsEntries.BucketsSearchEverything | openimscore/ser_ims/ser_ims_modified/ser_ims/dns_cache.c:397-451 | Looking into the bucket of each name finds what a plain search of all live entries finds. |
| DnsEntries.ErrorIffTooManyAliases | openimscore/ser_ims/ser_ims_modified/ser_ims/dns_cache.c:437-443 | A lookup reports an error if and only if it meets a twelfth CNAME. |
| DnsEntries.LoopIsReported | openimscore/ser_ims/ser_ims_modified/ser_ims/dns_cache.c:437-443 | Every loop of CNAMEs is reported. |
| DnsEntries.FoundIsLastUsed | openimscore/ser_ims/ser_ims_modified/ser_ims/dns_cache.c:435-451 | Without an error the result is an entry of the wanted type, or the last CNAME of an unfinished chain. |
| DnsCache.FoundIsLive | openimscore/ser_ims/ser_ims_modified/ser_ims/dns_cache.c:399-401 | No lookup uses or returns an expired entry. |
| DnsCache.LiveEntriesStay | openimscore/ser_ims/ser_ims_modified/ser_ims/dns_cache.c:399-401 | What keeps the live contents of the buckets removes expired entries only. |
| DnsCache.InitCache | openimscore/ser_ims/ser_ims_modified/ser_ims/dns_cache.c:225-256 | The cache starts empty and valid, filing names by a hash that is blind to case. |
| DnsCache.Cache.Find | openimscore/ser_ims/ser_ims_modified/ser_ims/dns_cache.c:382-452 | The bucket walk with removal of expired entries and chasing of CNAMEs gives the answer of a plain search through all live entries of the cache; the live entries stay, and in the last-used list those used move to the end in the order of use. It terminates. |
| DnsCache.Cache.Remove | openimscore/ser_ims/ser_ims_modified/ser_ims/dns_cache.c:350-370 | Takes the entry out of its bucket and of the last-used list and its size off the counter; both structures keep holding the same entries. |
| DnsCache.Cache.FreeMem | openimscore/ser_ims/ser_ims_modified/ser_ims/dns_cache.c:529-585 | The walk leaves exactly the specified list and counter; the buckets keep exactly the entries that are left, in order; the number of deleted entries is right. |
| DnsCache.SweepReachesTarget | openimscore/ser_ims/ser_ims_modified/ser_ims/dns_cache.c:529-585 | It ends at or below the target, or with no removable entry left. |
| DnsCache.SweepSparesLive | openimscore/ser_ims/ser_ims_modified/ser_ims/dns_cache.c:529-585 | With expired_only no live entry goes. |
| DnsCache.SweepTakesPrefix | openimscore/ser_ims/ser_ims_modified/ser_ims/dns_cache.c:529-585 | Otherwise the least recently used entries go, and each only while the counter is above the target. |
| DnsCache.SweepAccounts | openimscore/ser_ims/ser_ims_modified/ser_ims/dns_cache.c:529-585 | The counter goes down by exactly the sizes removed. |
| DnsCache.Cache.Clean | openimscore/ser_ims/ser_ims_modified/ser_ims/dns_cache.c:461-521 | Looks at no more than the given number of entries, at least one, and removes the removable ones among them. |
| DnsCache.Cache.Timer | openimscore/ser_ims/ser_ims_modified/ser_ims/dns_cache.c:182-191 | No live entry goes; the counter falls to half the maximum or nothing expired is left; below three quarters every expired entry goes. |
| DnsCache.Cache.Add | openimscore/ser_ims/ser_ims_modified/ser_ims/dns_cache.c:614-645 | Undisturbed by other processes: after making room if needed the entry is appended to its bucket and to the last-used list exactly when the counter stays below the maximum. |
| DnsCache.Cache.Append | openimscore/ser_ims/ser_ims_modified/ser_ims/dns_cache.c:633-641 | The locked part of it, from whatever state other processes left: the entry joins the end of its bucket and of the last-used list, its size the 32-bit counter. |
| DnsCache.Cache.AddIfFits | openimscore/ser_ims/ser_ims_modified/ser_ims/dns_cache.c:660-676 | The second locked part of the other version, from whatever state other processes left: the entry is added exactly when the counter stays below the maximum, which it then is; otherwise nothing changes. |
| DnsCache.AddBoundsTheSum | openimscore/ser_ims/ser_ims_modified/ser_ims/dns_cache.c:655-664 | The bound on the 32-bit counter is a bound on the real sum if and only if the sum does not wrap. |
| DnsRecords.SplitIsPartition | openimscore/ser_ims/ser_ims_modified/ser_ims/dns_cache.c:822-837 | The records taken and the records left are together the records there were; none is lost or shared. |
| DnsRecords.Split | openimscore/ser_ims/ser_ims_modified/ser_ims/dns_cache.c:819-914 | The pointer surgery leaves two well-linked lists, each in the original order, and measures the records taken. |
| DnsRecords.MkRdEntry | openimscore/ser_ims/ser_ims_modified/ser_ims/dns_cache.c:764-1047 | The entry has the kind of the first matching record, all its records in order, the computed size and expiry; the copy pass ends exactly at that size; what is not taken stays; without memory the records taken are lost. Of NAPTR records only the last is kept, because their copy loop does not advance. |
| DnsRecords.NaptrFits | openimscore/ser_ims/ser_ims_modified/ser_ims/dns_cache.c:993-1022 | The NAPTR record that is kept lies inside the block measured for all of them. |
| DnsRecords.LayoutFits | openimscore/ser_ims/ser_ims_modified/ser_ims/dns_cache.c:948-1035 | Each record is aligned, its data lies behind it and before the next one, and the last one ends at the measured end. |
| DnsRecords.MaxTtlIsMax | openimscore/ser_ims/ser_ims_modified/ser_ims/dns_cache.c:951-953 | The entry lives as long as the longest lived of its records after clamping. |
| DnsSrv.EntryGetRr | openimscore/ser_ims/ser_ims_modified/ser_ims/dns_cache.c:1593-1614 | Returns the first good record from the given number on, and fills in the number it started from. |
| DnsSrv.SrvHandle.ResolveIp | openimscore/ser_ims/ser_ims_modified/ser_ims/dns_cache.c:2104-2138 | At any time, whatever expired since the last call, yields the next destination of the flattening of what is still live, with the port of its SRV record, skipping unresolvable targets, or the code for end of records. |
| DnsSrv.SrvHandle.IpResolve | openimscore/ser_ims/ser_ims_modified/ser_ims/dns_cache.c:2041-2059 | Tries the address families in the order the flags ask for, keeps to the entry it found, and gives nothing of an expired one. |
| DnsSrv.SrvHandle.Walk | openimscore/ser_ims/ser_ims_modified/ser_ims/dns_cache.h:222-235 | Repeating resolve and next terminates and yields exactly the flattening, then end of records; each slot holds at most one reference throughout. Entries may have any number of records as long as no good one stands at position 255 or behind. |
| DnsSrv.SrvHandle.Rounds | openimscore/ser_ims/ser_ims_modified/ser_ims/dns_cache.h:222-235 | Over an entry of addresses with a good record at position 255 or behind, the walk is still in that entry after any number of rounds, each of which yields a destination. |
| DnsSrv.SrvHandle.Put | openimscore/ser_ims/ser_ims_modified/ser_ims/dns_cache.h:159-171 | Gives back every reference the handle holds. |
| DnsSrv.YieldsGoodIffMarkedLast | openimscore/ser_ims/ser_ims_modified/ser_ims/dns_cache.c:1593-1614 | The records of an entry come exactly once each, in order, if and only if no record marked bad stands before a good one. |
| DnsSrv.MarkedFirstRepeats | openimscore/ser_ims/ser_ims_modified/ser_ims/dns_cache.c:1593-1614 | A marked record in front of a good one: the good one comes twice. |
| DnsSrv.WalkIsPlain | openimscore/ser_ims/ser_ims_modified/ser_ims/dns_cache.c:2104-2138 | Then the walk is every good SRV record in order, and for each the good addresses of its target in order. |
| DnsSrv.CounterMeetsEnd | openimscore/ser_ims/ser_ims_modified/ser_ims/dns_cache.h:222-228 | The one-byte counter meets the end if and only if no good record stands at position 255 or behind; otherwise every step of an endless walk yields a record. |
| Md5.Context.Update | openimscore/ser_ims/ser_ims_modified/ser_ims/md5.c:127-165 | The context stands for the message so far followed by the input: state, buffer and bit count together. |
| Md5.Context.Final | openimscore/ser_ims/ser_ims_modified/ser_ims/md5.c:170-195 | The digest is that of sections 3.1 to 3.5 of RFC 1321 on the whole message, and the context is wiped. |
| Md5.HashPieces | openimscore/ser_ims/ser_ims_modified/ser_ims/md5.c:111-195 | However a message is cut up, the digest is the one of the whole message. |
| Md5.SameMessageSameContext | openimscore/ser_ims/ser_ims_modified/ser_ims/md5.c:127-165 | Two contexts fed the same bytes agree in every field and every buffered byte that counts. |
| Md5.CountAdds | openimscore/ser_ims/ser_ims_modified/ser_ims/md5.c:137-142 | The two-word count with a hand-made carry is eight times the length modulo 2^64. |
| Md5.EndianRoundTrip | openimscore/ser_ims/ser_ims_modified/ser_ims/md5.c:292-321 | Decode undoes Encode. |
| Md5.PaddedIsLeast | openimscore/ser_ims/ser_ims_modified/ser_ims/md5.c:178-187 | The padded message is a whole number of blocks, and the fewest that have room for the mark and the length. |
| Md5.LoopEndsIffFits | openimscore/ser_ims/ser_ims_modified/ser_ims/md5.c:153-154 | The block loop, in 32-bit arithmetic, ends if and only if the bytes buffered and the input are together shorter than 2^32. |
| Md5.LoopMayNotEnd | openimscore/ser_ims/ser_ims_modified/ser_ims/md5.c:153-154 | One byte buffered and the longest input: the loop goes on after any number of rounds. |
| Subst.Parse | openimscore/ser_ims/ser_ims_modified/ser_ims/re.c:70-268 | A template is accepted if and only if it has a meaning under an independent grammar, with fewer than 100 escapes and known flags, and what is kept has that meaning. |
| Subst.EscsOrdered | openimscore/ser_ims/ser_ims_modified/ser_ims/re.c:118-205 | The escapes of an accepted template are strictly ordered, disjoint, of size two and inside the replacement. |
| Subst.FillMeans | openimscore/ser_ims/ser_ims_modified/ser_ims/re.c:318-385 | Filling in a parsed template gives its expansion. |
| Subst.LengthsAgree | openimscore/ser_ims/ser_ims_modified/ser_ims/re.c:272-312 | The computed length is the length of what is filled in. |
| Subst.ReplaceBuild | openimscore/ser_ims/ser_ims_modified/ser_ims/re.c:318-385 | The buffer of the computed length is filled exactly. |
| Subst.Run | openimscore/ser_ims/ser_ims_modified/ser_ims/re.c:394-460 | The list of edits and the count are those of repeated matching, or -1 after an error. |
| Subst.SpliceIsSubstitution | openimscore/ser_ims/ser_ims_modified/ser_ims/re.c:482-520 | The edits are in order and disjoint, and making them gives the input with its matches replaced. |
| Subst.SubstStr | openimscore/ser_ims/ser_ims_modified/ser_ims/re.c:469-529 | The result is the substituted input, or nothing without a match or after an error. |
| Subst.LoopEndsIffMovesOn | openimscore/ser_ims/ser_ims_modified/ser_ims/re.c:420-451 | The global loop ends if and only if no match it meets behind the first one ends where it was looked for. |
| Subst.NoEmptyMatchEnds | openimscore/ser_ims/ser_ims_modified/ser_ims/re.c:420-451 | An expression that matches no empty text meets that condition on every input. |
| Subst.EmptyMatchRepeats | openimscore/ser_ims/ser_ims_modified/ser_ims/re.c:420-451 | Such a match is found again in every later round. |
| IpText.IpAddr2A | openimscore/ser_ims/ser_ims_modified/ser_ims/ip_addr.h:419-542 | For every address the text with its terminator fits the 40-character buffer and is the specified text. |
| IpText.Str2Ip | openimscore/ser_ims/ser_ims_modified/ser_ims/resolve.h:172-211 | The loop computes the specified reading. |
| IpText.Str2Ip6 | openimscore/ser_ims/ser_ims_modified/ser_ims/resolve.h:217-300 | The same for IPv6, brackets and double colon included. |
| IpText.RoundTrip4 | openimscore/ser_ims/ser_ims_modified/ser_ims/resolve.h:172-211 | Reading a printed IPv4 address gives it back, for all 2^32. |
| IpText.RoundTrip6 | openimscore/ser_ims/ser_ims_modified/ser_ims/resolve.h:217-300 | Reading a printed IPv6 address gives it back, for all 2^128, in brackets or without. |
| IpText.PrintingIsInjective | openimscore/ser_ims/ser_ims_modified/ser_ims/ip_addr.h:419-542 | Different addresses of one family never print alike. |
| Qvalue.Str2Q | openimscore/ser_ims/ser_ims_modified/ser_ims/qvalue.c:41-184 | The state machine gives the specified value or error code, whatever the variable held before. |
| Qvalue.ReadAccepts | openimscore/ser_ims/ser_ims_modified/ser_ims/qvalue.c:41-184 | Accepted are exactly blanks followed by zeros, zeros and a one, zeros and `1.` and zeros, or zeros, a point and digits; the value is cut off to thousandths and lies in 0..1000. |
| Qvalue.RoundTrip | openimscore/ser_ims/ser_ims_modified/ser_ims/qvalue.h:134-168 | Reading undoes printing on 0..1000. |
| Qvalue.LengthsAgree | openimscore/ser_ims/ser_ims_modified/ser_ims/qvalue.h:87-103 | The printed length is the computed one for every integer. |
| Qvalue.Q2Str | openimscore/ser_ims/ser_ims_modified/ser_ims/qvalue.h:134-168 | The text with its terminator fits the six-character buffer. |
| Dset.LengthsAgree | openimscore/ser_ims/ser_ims_modified/ser_ims/dset.c:213-236 | The length of the first pass is the length of the header the second pass writes. |
| Dset.DestinationSet.Append | openimscore/ser_ims/ser_ims_modified/ser_ims/dset.c:143-197 | A branch is added exactly when there is room and the URIs given fit; otherwise nothing changes. The current URI, taken when none is given, is not checked, and its copy overruns the branch exactly when it has 1024 bytes or more. |
| Dset.DestinationSet.NextBranch | openimscore/ser_ims/ser_ims_modified/ser_ims/dset.c:98-127 | Gives the branches in order, then none. |
| Dset.DestinationSet.Print | openimscore/ser_ims/ser_ims_modified/ser_ims/dset.c:204-291 | The header is written exactly when there is a contact and it fits; the length leaves out the blank written behind the line end. |

## Left out

- `COND_IF_RAND`: two evaluations may differ, so no statement about two passes holds of it; every other condition is a fixed function of message and destination.
- Compression parameters of substitution lumps (USE_COMP): off in the modelled build.
- Chains of a lump are sequences stored in the lump object, and a list is the sequence of its lumps; the `next`, `before` and `after` pointers, and aliasing of chains, are modelled only in `LumpCopy`, where lists are trees of nodes with identities. `CList` models the circular lists of the cache with their pointers.
- The length argument of `anchor_lump`, which is never read again, and the header type stored in a lump.
- Via construction, `received` and `rport` builders, warnings, branches and identifiers: their results are parameters.
- Script actions that steer nothing (sending, logging, URI rewriting, AVPs, exec) are one action with an arbitrary result; comparisons other than on numbers and the return code are one test with an arbitrary result.
- ScriptTheorems.GuardedScriptsRunCleanly: the guard is read off the text of the script, so its converse does not hold for whole scripts: a return that is never reached does no harm, and what was cut off may be done later all the same. For single operands `CutShows` and `PlainCommandSurvivesIff` give it.
- SipReply.LengthsAgree: where a tag is to be replaced, one To header only; in a further one the source would copy up to the tag of the first, which is a negative length. RFC 3261, section 7.3.1, allows no second one.
- SipMessage.BuiltContentLength: body lumps start behind the end of the lump that was filed, at the end of the headers or before; `del_lump` files no others there.
- SipMessage.SipMsg.BuildAll: the Content-Length header and the unparsed rest are taken to lie in the headers, as the parser leaves them.
- DnsReferences: sizes and expiry are left to `DnsCache`, and the lists that `dns_get_related` makes to `DnsRelated`; a process may find or remove any entry in the table, space may run out, and an entry may be forgotten at any time. The reuse of a CNAME text after its entry was released is not part of it: the name is kept as a value.
- DnsRelated.GetRelated: the entries that `dns_cache_mk_rd_entry` makes are a parameter, an arbitrary function of name, type and records left that uses up records for each entry.
- DnsCache.Cache.Remove: buckets and last-used list are sequences; the rings of `CList` are not joined to them.
- DnsCache.Cache.Add: states an add that no other process disturbs; the parts between which the lock is free are `FreeMem`, `Append` and `AddIfFits`, each proved from every valid state.
- DnsCache.Cache.FindFrom: the jump back to the start of `_dns_hash_find` is a tail call.
- The `last_used` time of an entry, which only statistics read.
- DnsSrv.SrvHandle.Walk: one time throughout, and entries without a good record at position 255 or behind, for which `CounterMeetsEnd` and `SrvHandle.Rounds` show that there is no end. Lookups of one walk give the same answer for the same name.
- DnsSrv.SrvHandle.ResolveIp: the SRV entry has no good record at position 255 or behind; otherwise the call itself may go round for ever over targets that cannot be resolved.
- DnsRecords.MkRdEntry: sizes are those of a 64-bit machine; the pointers in a NAPTR record are distances.
- `dns_cache_mk_rd_entry2`, the variants without the last-used list, `dst_blacklist.c`, host-entry conversion.
- Md5: the block transform is an arbitrary function of state and block.
- Subst: compiling and matching of regular expressions, beyond the order and range of the offsets of a match; allocation failures.
- `del_nonshm_lump`: it combines the unlinking of `del_nonshm_lump_rpl`, which is modelled, with the freeing of `free_lump_list`.
- IpText: addresses are host-order numbers; the conversions to network order and back cancel.
- Sockets, processes, signals, RPC, logging and configuration.
