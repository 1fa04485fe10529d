# Verification of the emulator's storage, transport and bus models

This project models, in Dafny, the parts of the repository whose behaviour is a protocol, a refinement or a round trip,
and proves what they are for. `dafny verify dfyconfig.toml` checks all of it.

| file | what it models |
|---|---|
| SharedRing.dfy | the shared-memory portal ring, producer and consumer interleaved one shared access at a time |
| BlockNet.dfy | the HTTP block device: an LRU block cache, copy-on-write clusters, one resumable request |
| Aes.dfy, Cbc.dfy, DecryptFile.dfy | AES by tables with its key schedules, CBC in place, and the streaming file decryptor |
| FiniteSum.dfy, FsTree.dfy, FsDots.dfy, FsNames.dfy | the in-memory filesystem's inodes, entries and handles with all their counts |
| FsTrap.dfy | a run of filesystem calls after which a directory is freed with a file in it |
| FsFile.dfy | the contents of a regular file in its growing and shrinking buffer |
| FsLoad.dfy, FsOpen.dfy | loading files over the network: transfers, archives, the cache of loaded files, opens that wait |
| FileNames.dfy, FileNumbers.dfy, FileList.dfy, FileListTools.dfy | the file list, printed and loaded |
| Dma.dfy | the scatter list of a memory object and the page lookup it makes possible |
| PciIrq.dfy, PciBar.dfy, PciBridge.dfy | PCI interrupt routing, base address registers, and guest writes through the host bridge |
| Ide.dfy | the IDE controller's sector commands |
| Xsim.dfy, Packers.dfy, Messages.dfy | message framing between portals, argument packing, and both together |
| Axi.dfy | bus bursts |
| Wrappers.dfy | options, 32-bit words and powers of two, shared by the others |

Code that changes things step by step is a class or a method with loops. What it computes is stated with functions on
values, and the lemmas say what those functions mean. The inode tables are maps from inode numbers to values, so that a
freed inode is one that is absent and a dangling pointer can be expressed. The S-box of AES is any bijection on bytes, and
the tables are defined from it and from multiplication in GF(2^8).

## What the proofs found

- A read of the block device that starts in an unwritten cluster and runs into a written one of the same block returns old
  data (block_net.c line 294 clips at the end of the block). `BlockNet.ReadIsCurrentExactly` is the exact condition and
  `BlockNet.StaleRead` the failing read; `BlockNet.StaleDevice` shows it on a device.
- A block of a prefetch group that is loaded already may be given up to make room for the rest of its group
  (`BlockNet.Prefetched` says when; `BlockNet.PrefetchGivesUp` is a device where it is). Every listed block that was
  missing is asked for.
- `AES_cbc_encrypt` leaves the decrypted block, not the cipher block, as chaining value after a partial last block
  (aes.c lines 1312-1318). Whole-block calls, the only ones in use, carry the cipher block.
- `fs_truncate` takes a difference of 2^63 or more for a shrink and succeeds with the size beyond the buffer.
  `FsFile.RegFile.Truncate` says exactly when; `FsFile.HugeResize` is the least case. A write whose end is 2^63 or more
  beyond the file's, or wraps around 64 bits, is stored outside the buffer: `FsFile.RegFile.Write` says exactly when.
- The blocks counted for a file of nearly 2^64 bytes are too few, since rounding up wraps around (`FsFile.BlocksCover`).
- A directory can be freed with entries in it, where `inode_free` asserts that there are none. `FsNames.Trap` says before
  each call exactly when (`FsNames.FSDeviceMem.Do`, `FsTree.FreedExactly`), and `FsTrap.MovedDots` is a run of calls
  that does it. It takes a rename of `.` or an entry added to a directory that has been removed (`FsNames.TameSafe`).
- A file that is not loaded and is cut to a smaller size still loads, as a prefix; one that is extended fails to load.
- A name printed unquoted that begins with a double quote never comes back from a file list, and every other name that
  fits does. An empty line in a list is not skipped as the comment in the source says, but passed over with the mode that
  follows it, and nothing but an entry may follow (`FileList.EmptyLine`).
- An archive that is preloaded when there is no memory for it, or for a file in it, makes the code use a load record that
  does not exist: `FsOpen.FSDeviceMem.LoadPartAt` says exactly when.
- An I/O region is also mapped by the memory-space bit of the command register (`PciBar.EnabledAsSpecified`);
  `PciBar.IoByMemoryBit` is a device where it is.
- A write burst of less than eight bytes is answered only after 65536 beats, since its 16-bit counter starts at 0
  (`Axi.Beats`, `Axi.BeatsAsAsked`).

## What callers must do

Where a contract asks something of its caller, the source relies on it:

- `inode_dir_add` asserts that its target is a directory, and a rename is not onto itself.
- A handle is not deleted while its open is pending, a transfer has one terminal callback, and the server sends the
  contents that belong to the file id.
- The block device has one request at a time, blocks of a power of two of at least eight sectors, and requests inside the
  image. The answer for a block is the block.
- Portal messages, rounded up to even, fit the ring's largest message, and those from the simulator their client's buffer.
- PCI regions are registered before the guest writes. Routing registers stay as they are. Registers keep the bits of their
  types only because 32-bit configuration writes are aligned (`PciBar.AlignedExactly`), which the host bridge sees to
  (`PciBridge.RoutedAligned`).
- During an IDE command the host touches only the data port, and only when data is asked for; the sectors named exist.
- Write data follows its address on the bus.

## Model

| member | source | states |
|---|---|---|
| SharedPortal.LaidFrame | src/connectal/transportShared.c:139-151 | What the consumer will read is unaffected by stores off its path |
| SharedPortal.LaidAppend | src/connectal/transportShared.c:124-138 | After a message is stored at the write index and the index published, the consumer reads the earlier messages and then this one |
| SharedPortal.AdmitsAfterRead | src/connectal/transportShared.c:92-115 | A passed space check stays valid while the reader advances |
| SharedPortal.ProducerRoom | src/connectal/transportShared.c:92-138 | Under a passed space check a message lies off the path of unread words and inside the array, and the next write index never reaches the read index |
| SharedPortal.EmptyRingAdmits | src/connectal/transportShared.c:92-115 | An empty ring admits a message if and only if the limit exceeds twice the largest message plus 4 |
| SharedPortal.AdmitsExactly | src/connectal/transportShared.c:92-115 | For any two places of messages the space check passes if and only if more ring words than twice the largest message are off the path of unread words |
| SharedPortal.IncrementPlace | src/connectal/transportShared.c:116-123 | The next index stays where it is exactly if the largest message may start there, and wraps to the first ring word otherwise |
| SharedPortal.PaddedIsMask | src/connectal/transportShared.c:116-138 | The mask both sides apply is rounding up to even |
| SharedPortal.HeaderParts | src/connectal/transportShared.c:124-151 | Both sides recover method number and length from the header |
| SharedPortal.StoreBody | src/connectal/transportShared.c:84-115 | A body word touches no unread message and keeps the ring |
| SharedPortal.StoreHeader | src/connectal/transportShared.c:124-138 | The header touches no unread message and completes the stored message |
| SharedPortal.StorePad | src/connectal/transportShared.c:124-138 | So does the padding word of an odd-sized message |
| SharedPortal.StoreIndex | src/connectal/transportShared.c:116-138 | Publishing the new write index appends exactly the stored message, and write does not catch up with read |
| SharedPortal.ReadDone | src/connectal/transportShared.c:139-151 | Advancing the read index removes exactly the oldest message |
| SharedPortal.ReadKeepsProducer | src/connectal/transportShared.c:92-151 | What the producer relies on survives a step of the consumer |
| SharedPortal.VisibleAll | src/connectal/transportShared.c:139-151 | The handler misses no message but those of number 0xffff |
| SharedPortal.SharedRing.constructor | src/connectal/transportShared.c:45-83 | A fresh ring is empty and its control words are those of the transport |
| SharedPortal.SharedRing.MapChannel | src/connectal/transportShared.c:84-91 | Taking an address puts the message in flight and stores nothing |
| SharedPortal.SharedRing.BusyWait | src/connectal/transportShared.c:92-115 | The producer goes on if and only if the ring words off the path of unread words are more than twice the largest message |
| SharedPortal.SharedRing.ProduceIndex | src/connectal/transportShared.c:116-138 | The publishing step appends the message and changes one word |
| SharedPortal.SharedRing.ProduceEnd | src/connectal/transportShared.c:124-138 | The zero stored at the new write index lies off the unread words |
| SharedPortal.SharedRing.Finish | src/connectal/transportShared.c:139-151 | The handler gets the oldest message with its words, and it alone leaves the ring |
| SharedPortal.SharedRing.Run | src/connectal/transportShared.c:84-151 | For any interleaving: the producer takes up exactly the sends that find it free, in order; each is published or in flight, and the handler has been called for a prefix of the published messages, once each, in order, none but those of number 0xffff missing. Neither side can hold the other up: with so many steps of the consumer as the unread messages have words, and three for each, all of them are handled, and with so many of a producer past its space check its message is published, whatever the other side does in between |
| SharedPortal.OnTimeNext | src/connectal/transportShared.c:84-151 | A step of either side keeps the bounds on how many more it takes |
| SharedPortal.SharedRing.Drain | src/connectal/transportShared.c:139-151 | A consumer left alone delivers everything published |
| SharedPortal.SharedRing.Flush | src/connectal/transportShared.c:124-138 | A producer past its check publishes its message |
| SharedPortal.SharedRing.Exchange | src/connectal/transportShared.c:84-151 | On a large enough ring an empty ring takes and delivers any message |
| AesField.MixRowInverse | src/tinyemu/aes.c:53-65 | Over GF(2^8), the inverse MixColumns coefficients undo the forward ones |
| AesField.InvMixRowLinear | src/tinyemu/aes.c:839-891 | InvMixColumns is linear, which the transformed round keys rest on |
| Aes.TablesMix | src/tinyemu/aes.c:53-65 | The exclusive-or of the four encryption table entries is MixColumns of the four S-box values |
| Aes.TablesInvMix | src/tinyemu/aes.c:53-65 | Likewise for the decryption tables and InvMixColumns |
| Aes.SelectIsDiagonal | src/tinyemu/aes.c:892-1081 | The byte selections of a table round are ShiftRows |
| Aes.EncRoundMeans | src/tinyemu/aes.c:892-1040 | A table round is SubBytes, ShiftRows, MixColumns, AddRoundKey |
| Aes.DecRoundMeans | src/tinyemu/aes.c:1083-1230 | A table round of decryption is a round of the equivalent inverse cipher (FIPS 197, section 5.3.5) |
| Aes.EncFinalMeans | src/tinyemu/aes.c:1040-1081 | The last round has no MixColumns |
| Aes.DecFinalMeans | src/tinyemu/aes.c:1230-1268 | Nor has the last round of decryption |
| Fips197.EqInvCipherInverts | src/tinyemu/aes.c:839-1268 | The equivalent inverse cipher undoes the cipher, for every schedule |
| Fips197.EqInvCipherRefines | src/tinyemu/aes.c:839-1268 | The equivalent inverse cipher is the straightforward inverse cipher of FIPS 197 section 5.3 |
| Aes.SetEncryptKey | src/tinyemu/aes.c:738-838 | For 128, 192 and 256 bits the schedule is the key expansion of FIPS 197 section 5.2 |
| Aes.SetDecryptKey | src/tinyemu/aes.c:839-891 | The schedule is the encryption schedule reversed with InvMixColumns on all but the first and last round key |
| Aes.ExpandedKeys | src/tinyemu/aes.c:738-838 | The expanded words are the round keys of the specification, word by word |
| Aes.RconTable | src/tinyemu/aes.c:729-733 | The round constants are powers of x |
| Aes.ReverseKeys | src/tinyemu/aes.c:850-865 | The round keys are reversed in place |
| Aes.TransformKeys | src/tinyemu/aes.c:866-888 | Every inner round key is transformed by InvMixColumns |
| Aes.InvMixByTablesMeans | src/tinyemu/aes.c:866-888 | The lookup of decryption tables through the S-box is InvMixColumns |
| Aes.AesEncrypt | src/tinyemu/aes.c:892-1081 | The method computes the cipher of FIPS 197 on the block |
| Aes.AesDecrypt | src/tinyemu/aes.c:1083-1268 | The method computes the equivalent inverse cipher on the block |
| Aes.DecryptInverts | src/tinyemu/aes.c:892-1268 | With matching schedules decryption undoes encryption |
| Aes.RoundTrip | src/tinyemu/aes.c:738-1268 | For every key of 128, 192 or 256 bits and every block, in place: set both keys, encrypt, which gives the cipher of the block, decrypt, and the block is back |
| Cbc.CbcRoundTrip | src/tinyemu/aes.c:1272-1321 | Chained decryption undoes chained encryption for every length and chaining value |
| Cbc.DecryptedSplit | src/tinyemu/aes.c:1294-1321 | Decrypting in two runs of whole blocks, carrying the chaining value, is decrypting in one |
| Cbc.EncryptedSplit | src/tinyemu/aes.c:1272-1293 | Likewise for encryption |
| Cbc.PartialBlock | src/tinyemu/aes.c:1276-1293 | A partial last block is encrypted as if filled up with zeros |
| Cbc.DecryptedBlock | src/tinyemu/aes.c:1294-1307 | Each block is the decrypted block exclusive-or the previous cipher block (section 6.2 of SP 800-38A) |
| Cbc.AesInverts | src/tinyemu/aes.c:892-1268 | The block functions of a key pair are inverse |
| Cbc.CbcEncrypt | src/tinyemu/aes.c:1276-1293 | In place or not, the output is the chained encryption and the chaining value is left for the next call |
| Cbc.CbcDecrypt | src/tinyemu/aes.c:1294-1321 | In place or not, the output is the chained decryption, a partial last block included |
| Cbc.AesCbcEncrypt | src/tinyemu/aes.c:1272-1321 | The entry point does one or the other; after a partial block it leaves the decrypted block as chaining value, as the code does |
| DecryptFile.DecryptFileState.Decrypt | src/tinyemu/fs_wget.c:358-399 | A chunk of any size extends the stream received; -1 if and only if a complete header is wrong |
| DecryptFile.DecryptFileState.FlushBlocks | src/tinyemu/fs_wget.c:379-392 | A full buffer is written decrypted but for its last block |
| DecryptFile.DecryptFileState.Flush | src/tinyemu/fs_wget.c:402-424 | 0 if and only if the whole stream holds a file, and then the output is that file (what that is: DecryptFile.FileOfExactly) |
| DecryptFile.BlocksOut | src/tinyemu/fs_wget.c:379-392 | Writing blocks early does not change what the stream decrypts to |
| DecryptFile.LastBlocks | src/tinyemu/fs_wget.c:402-424 | What the bytes still held mean at the end of the stream |
| DecryptFile.PaddedTail | src/tinyemu/fs_wget.c:413-423 | The padding lies in the last block, which is never written early |
| DecryptFile.FileOfExactly | src/tinyemu/fs_wget.c:402-424 | A stream is accepted with a text exactly if it is the magic, sixteen bytes of initial value and whole blocks whose chained decryption is that text with one to sixteen bytes of padding, the last of which is their number |
| DecryptFile.EncryptedFileRead | src/tinyemu/fs_wget.c:358-424 | The magic, the initial value and the chained encryption of a padded text decrypt to the text, for any pair of inverse block functions |
| DecryptFile.DecryptStream | src/tinyemu/fs_wget.c:358-424 | For every way of splitting a stream into chunks, it is accepted exactly if the whole stream holds a file, and the output is that file |
| DecryptFile.DecryptEncrypted | src/tinyemu/fs_wget.c:358-424 | For every key of the three sizes, initial value, text, padding and way of splitting into chunks, the file encrypted with AES in CBC mode comes out as its text |
| BlockNet.ReadIsCurrent | src/tinyemu/block_net.c:266-343 | A read that does not run from an unwritten into a written cluster of one block is the current disk |
| BlockNet.ReadIsCurrentExactly | src/tinyemu/block_net.c:266-343 | The read is right whatever was written if and only if it does not |
| BlockNet.StaleRead | src/tinyemu/block_net.c:286-300 | In every other case there are contents for which the read is stale |
| BlockNet.BlockDevice.OverwriteThenRead | src/tinyemu/block_net.c:266-343 | On any device: once a cluster is overwritten, a read from an unwritten cluster before it in the same block brings the old sectors back |
| BlockNet.StaleDevice | src/tinyemu/block_net.c:266-343 | It happens on a new device of one block of sixteen sectors |
| BlockNet.WriteToCluster | src/tinyemu/block_net.c:303-318 | Writing into a cluster advances the write by exactly those sectors |
| BlockNet.AllocateCluster | src/tinyemu/block_net.c:318-336 | Copying a cluster from its block changes nothing on the disk |
| BlockNet.ReadFromCluster | src/tinyemu/block_net.c:277-286 | Reading from a cluster advances the read |
| BlockNet.ReadFromBlock | src/tinyemu/block_net.c:286-300 | Reading from a block advances the read to the end of the block |
| BlockNet.WriteFinished | src/tinyemu/block_net.c:266-343 | A finished write replaced exactly its sectors |
| BlockNet.ReadFinished | src/tinyemu/block_net.c:266-343 | A finished read returned the latest contents or, where it ran on, old block data |
| BlockNet.HistoryGrows | src/tinyemu/block_net.c:374-406 | Completed requests form a history that the device agrees with |
| BlockNet.EvictedKeeps | src/tinyemu/block_net.c:144-168 | Eviction keeps every loading block and the data of those that stay |
| BlockNet.EvictedTail | src/tinyemu/block_net.c:144-168 | What eviction leaves are blocks of the old list in their old order, and if a block is gone it was loaded and so is every loaded one after it |
| BlockNet.CallbackSteps | src/tinyemu/block_net.c:333-406 | An asynchronous request is answered once and a synchronous one never |
| BlockNet.BlockDevice.FindBlock | src/tinyemu/block_net.c:117-134 | The block found moves to the front of the list and the others keep their order |
| BlockNet.BlockDevice.AddBlock | src/tinyemu/block_net.c:144-168 | Of the old list and the new: if a block is gone, it was loaded and no loaded block used longer ago is still there; those that stay keep their order; no more go than needed; the limit is passed only if all are loading |
| BlockNet.BlockDevice.RwAsync1 | src/tinyemu/block_net.c:266-343 | The request is served to its end, or waits for a loading block, the only one it may have asked for |
| BlockNet.BlockDevice.UpdateBlock | src/tinyemu/block_net.c:345-358 | A load in flight finds its block, and that block alone changes |
| BlockNet.BlockDevice.OnLoad | src/tinyemu/block_net.c:360-372 | An answer resumes the request that waits for it, and only that one; the block is no longer loading, and the one other load that may have begun is that of the block the request now waits for |
| BlockNet.BlockDevice.ReadAsync | src/tinyemu/block_net.c:374-389 | 0 with the data, or 1 and the callback later |
| BlockNet.BlockDevice.WriteAsync | src/tinyemu/block_net.c:391-406 | 0 when written, or 1 and the callback later |
| BlockNet.BlockDevice.StartLoadPrefetchGroup | src/tinyemu/block_net.c:202-241 | Each block asked for is one this load will fill, once, and none but listed ones are; every listed block that was missing is asked for; blocks of before, listed or not, and the listed ones are in the cache afterwards, except that loaded ones of before may have gone if cache and list together pass the limit |
| BlockNet.PrefetchGivesUp | src/tinyemu/block_net.c:202-241 | On a device with room for one block, a loaded block is given up for the next of its own group |
| BlockNet.BlockDevice.OnGroupLoad | src/tinyemu/block_net.c:243-264 | When the group arrives every block it was to fill is still loading, whatever was evicted meanwhile, and afterwards none is, unless the pending request waits for it anew; no request is made or lost |
| BlockNet.BlockDevice.Complete | src/tinyemu/block_net.c:266-372 | The awaited answers finish the request with one callback |
| BlockNet.BlockDevice.WriteDisk | src/tinyemu/block_net.c:266-406 | A write served to its end changes exactly its sectors of the flat disk |
| BlockNet.BlockDevice.ReadDisk | src/tinyemu/block_net.c:266-406 | A read served to its end, with its exact condition |
| BlockNet.BlockDevice.WriteThenRead | src/tinyemu/block_net.c:266-406 | What is written is read back |
| BlockNet.BlockDevice.Run | src/tinyemu/block_net.c:117-406 | In any run the requests completed, and the one pending, are those the client made, in order; the device refines the flat array they leave, and callbacks match requests one to one. Event by event: a request taken up loads no block but the one it waits for, one made too early or outside the image changes nothing, and the answer for a block ends its load and takes the request that waits for it, and no other, further |
| FsTree.LiveExactly | src/tinyemu/fs_net.c:317-401 | Between calls the inodes that exist are exactly those the root, an entry or a handle refers to: nothing leaks, nothing dangles |
| FsTree.LastReference | src/tinyemu/fs_net.c:329-401 | An inode on its last reference is named by nothing, itself included |
| FsTree.InodeFreed | src/tinyemu/fs_net.c:329-401 | Freeing it keeps every count, size and total, unless it has entries |
| FsTree.InodeBorn | src/tinyemu/fs_net.c:411-446 | A new inode is held once and counted |
| FsTree.EntryAdded | src/tinyemu/fs_net.c:448-468 | A directory entry takes over a held reference; directory size and blocks follow |
| FsTree.EntryRemoved | src/tinyemu/fs_net.c:545-558 | A removed entry gives its reference back; directory size and blocks follow |
| FsTree.EntriesTake | src/tinyemu/fs_net.c:448-468 | The size of a directory is a fixed part per entry and the characters of the names |
| FsTree.BlocksCover | src/tinyemu/fs_net.c:312-315 | The blocks counted for a size hold it and one fewer would not |
| FsTree.BodyChanged | src/tinyemu/fs_net.c:312-385 | Any change of an inode's contents keeps the counts and the block total, given the names it adds or drops |
| FsTree.AccountsNatural | src/tinyemu/fs_net.c:329-385 | The totals and counts the code asserts non-negative are |
| FsTree.StillNamed | src/tinyemu/fs_net.c:568-577 | An inode with a name is not freed while running code drops other references |
| FsTree.FreedExactly | src/tinyemu/fs_net.c:329-385 | Freeing an inode with no reference and no handle keeps the reference counts exact if and only if it is not a directory with entries |
| FsTree.OrphanedMeans | src/tinyemu/fs_net.c:568-577 | A directory with entries is lost when another is emptied if and only if it is not the root, nothing else names it and no handle is on it |
| FsTree.OrphansKept | src/tinyemu/fs_net.c:568-577 | What emptying a directory is going to lose does not depend on the order in which its entries go |
| FsDots.DotCounts | src/tinyemu/fs_net.c:650-666 | A directory that has its "." keeps a reference besides those of any other directory |
| FsDots.NoOrphans | src/tinyemu/fs_net.c:568-577 | While every directory with entries has its ".", emptying a directory frees none with entries |
| FsDots.RemovedDirectoryTrap | src/tinyemu/fs_net.c:346-349 | A removed directory is empty, and an entry added to it is freed with it when the last handle goes |
| FsTree.MapWithout | src/tinyemu/fs_net.c:545-558 | Removing an entry removes exactly its name |
| FsNames.FSDeviceMem.constructor | src/tinyemu/fs_net.c:1524-1578 | A filesystem of one directory, its own parent |
| FsNames.FSDeviceMem.InodeIncref | src/tinyemu/fs_net.c:317-321 | One more reference held |
| FsNames.FSDeviceMem.InodeIncOpen | src/tinyemu/fs_net.c:323-327 | One more open count held |
| FsNames.FSDeviceMem.InodeFree | src/tinyemu/fs_net.c:329-385 | An unreferenced inode leaves the table, the inode count and the block total, or is a directory with entries and the assertion fails |
| FsNames.FSDeviceMem.InodeDecref | src/tinyemu/fs_net.c:387-393 | The inode is freed exactly when both counts reach zero, which fails exactly if it has entries |
| FsNames.FSDeviceMem.InodeDecOpen | src/tinyemu/fs_net.c:395-401 | Likewise for the open count |
| FsNames.FSDeviceMem.InodeNew | src/tinyemu/fs_net.c:411-446 | The new inode, its attributes, and the reference the caller holds |
| FsNames.FSDeviceMem.InodeDirAdd | src/tinyemu/fs_net.c:448-468 | The held reference becomes an entry |
| FsNames.FSDeviceMem.InodeSearch | src/tinyemu/fs_net.c:470-484 | The index of a name, or none |
| FsNames.FSDeviceMem.IsEmptyDir | src/tinyemu/fs_net.c:531-543 | True if and only if there is nothing but dots |
| FsNames.FSDeviceMem.InodeDirentDeleteNoDecref | src/tinyemu/fs_net.c:545-558 | The entry goes, its reference is held |
| FsNames.FSDeviceMem.InodeDirentDelete | src/tinyemu/fs_net.c:560-566 | The entry and its reference go and the directory itself stays; it fails exactly if that frees another directory with entries |
| FsNames.FSDeviceMem.FlushDir | src/tinyemu/fs_net.c:568-577 | Every entry goes, whatever that frees, and the size is 0; it fails if and only if another directory with entries was referred to by nothing else |
| FsNames.FSDeviceMem.FidCreate | src/tinyemu/fs_net.c:586-594 | A new handle, counted by its inode |
| FsNames.FSDeviceMem.Delete | src/tinyemu/fs_net.c:579-584 | The handle goes, and with it at most its inode; it fails if and only if it was all that kept a directory with entries |
| FsNames.FSDeviceMem.Attach | src/tinyemu/fs_net.c:621-629 | A handle on the root |
| FsNames.FSDeviceMem.Walk | src/tinyemu/fs_net.c:631-648 | A handle on the end of the longest prefix of the path that exists |
| FsNames.FSDeviceMem.Mkdir | src/tinyemu/fs_net.c:650-666 | Errors exactly as given; otherwise one new directory with dots, named in its parent, nothing else changed |
| FsNames.FSDeviceMem.Create | src/tinyemu/fs_net.c:1082-1105 | Likewise for a file, and the handle moves to it, open; it fails if and only if the handle was all that kept the directory |
| FsNames.FSDeviceMem.Link | src/tinyemu/fs_net.c:1370-1380 | One more name for a file |
| FsNames.FSDeviceMem.SymlinkAt | src/tinyemu/fs_net.c:1382-1395 | A symbolic link with its target |
| FsNames.FSDeviceMem.Mknod | src/tinyemu/fs_net.c:1397-1419 | A node of the type the mode says, a device with its major and minor numbers, a regular file empty; or the exact error |
| FsNames.FSDeviceMem.RenameAt | src/tinyemu/fs_net.c:1433-1455 | The name moves, "." and ".." included, a file in its way loses its own, no other name changes; or the exact error |
| FsNames.FSDeviceMem.UnlinkAt | src/tinyemu/fs_net.c:1457-1475 | The name goes, and a directory is emptied; or the exact error; it fails if and only if emptying frees a directory with entries |
| FsNames.FSDeviceMem.SetSize | src/tinyemu/fs_net.c:1185-1244 | The block total follows a file's size |
| FsNames.TameSafe | src/tinyemu/fs_net.c:329-385 | While directories have their ".", no call fails |
| FsNames.FSDeviceMem.Do | src/tinyemu/fs_net.c:317-1475 | Every call has exactly the effect on names, inodes and handles stated for it, or none if it returns an error, and keeps the counts if and only if it does not free a directory with entries, which can be told before the call; directories keep their "." unless it is renamed or an entry is added to a removed directory |
| FsNames.FSDeviceMem.Run | src/tinyemu/fs_net.c:317-1475 | In any run each call has its effect and all counts are kept up to the first call that frees a directory with entries, and the run stops exactly there; what exists is what is referred to; a run from the start without renames of "." and additions to removed directories has no such call |
| FsTrap.MovedDots | src/tinyemu/fs_net.c:1433-1475 | A run of calls on a new filesystem that frees a directory with a file in it: "." of the directory and its name are moved over ".." of two empty directories, which are then unlinked |
| FsFile.ReadWritten | src/tinyemu/fs_net.c:1162-1281 | A read returns what was written there |
| FsFile.ReadBeside | src/tinyemu/fs_net.c:1246-1281 | A write changes nothing else, and a hole before it reads as zeros |
| FsFile.RegrownIsZero | src/tinyemu/fs_net.c:1185-1244 | Growing after a shrink gives zeros, not the old bytes |
| FsFile.FileBuffer.Resize | src/tinyemu/fs_net.c:283-292 | The buffer keeps its bytes up to the new size, or is untouched |
| FsFile.RegFile.Grow | src/tinyemu/fs_net.c:1207-1218 | Room for the size, of the size itself or 5/4 of the old room if that is more, new bytes zero; or nothing changed |
| FsFile.RegFile.Shrink | src/tinyemu/fs_net.c:1219-1226 | The room becomes 4/5 of what it was if the size fits, which never cuts below the size |
| FsFile.RegFile.Truncate | src/tinyemu/fs_net.c:1185-1244 | Contents, state and accounts after a resize, when it is refused, and exactly when its 64-bit arithmetic goes wrong |
| FsFile.HugeResize | src/tinyemu/fs_net.c:1196-1227 | A resize to 2^63 bytes succeeds and leaves the size beyond the buffer |
| FsFile.BlocksCover | src/tinyemu/fs_net.c:312-315 | On 64 bits the blocks counted for a size hold it, with none to spare, if and only if rounding it up does not wrap around |
| FsFile.RegFile.Read | src/tinyemu/fs_net.c:1162-1183 | The slice of the contents, or the error |
| FsFile.RegFile.Write | src/tinyemu/fs_net.c:1246-1281 | All of the data at its offset, or the error and nothing changed; and exactly when the 64-bit end comes out wrong and the bytes miss the buffer |
| FsLoad.Answered | src/tinyemu/fs_net.c:723-869 | An open told to wait has been answered, or a transfer is still under way |
| FsLoad.WaiterAdded | src/tinyemu/fs_net.c:1048-1070 | A waiting open is recorded in one place |
| FsLoad.WaiterAnswered | src/tinyemu/fs_net.c:723-758 | Its completion is called once |
| FsLoad.CacheMore | src/tinyemu/fs_net.c:724-745 | A loaded file enters the cache once and its size is added |
| FsLoad.CacheLess | src/tinyemu/fs_net.c:670-697 | A file that leaves the cache takes its size with it |
| FsLoad.MemberAdded | src/tinyemu/fs_net.c:947-962 | A part of an archive lies inside it and is what the file would be on its own |
| FsLoad.MemberRemoved | src/tinyemu/fs_net.c:699-707 | A part that is done leaves its archive's list |
| FsLoad.FileDropped | src/tinyemu/fs_net.c:329-385 | A file that is neither loaded nor being loaded goes, and every count and total stays right |
| FsLoad.DeliveredOk | src/tinyemu/fs_net.c:709-722 | Bytes delivered go in place; those beyond the size are ignored |
| FsLoad.FullOk | src/tinyemu/fs_net.c:817-831 | A full buffer holds exactly size bytes of the source |
| FsOpen.PartAt | src/tinyemu/fs_net.c:938-966 | Where a listed file lies in an archive that is the concatenation of its files |
| FsOpen.FSDeviceMem.TrimCache | src/tinyemu/fs_net.c:670-697 | Afterwards the limit holds or every loaded file is in use; victims are the least recently used that are not, none if there was room, and the last one was needed |
| FsOpen.FSDeviceMem.OpenWget | src/tinyemu/fs_net.c:837-869 | A transfer starts with nothing delivered, or -P9_EIO without memory for the file; only unused loaded files are given up |
| FsOpen.FSDeviceMem.EndLoad | src/tinyemu/fs_net.c:724-758 | The file is loaded or given up, and whoever waits is told so |
| FsOpen.FSDeviceMem.CopyMember | src/tinyemu/fs_net.c:768-782 | A part gets exactly its slice of the archive |
| FsOpen.FSDeviceMem.ReadArchive | src/tinyemu/fs_net.c:760-786 | Every part of the archive is loaded and whoever waits for one told so, in order; no other file changes |
| FsOpen.FSDeviceMem.ErrorArchive | src/tinyemu/fs_net.c:788-797 | Every part is given up and whoever waits for one told so, in order; no other file changes |
| FsOpen.FSDeviceMem.OpenCb | src/tinyemu/fs_net.c:799-834 | At the end of a transfer the file is loaded with its first size bytes if there are that many, and given up otherwise; so are the parts of an archive, exactly the opens that wait for any of them are answered, and no other file changes |
| FsOpen.FSDeviceMem.PreloadFile | src/tinyemu/fs_net.c:872-883 | A listed file that was still to be loaded, and for which there is memory, is being loaded afterwards, alone; no other file changes but loaded ones that nobody uses |
| FsOpen.FSDeviceMem.LoadPartAt | src/tinyemu/fs_net.c:947-973 | A listed file that is to be loaded is loaded from the archive if it is as listed and alone otherwise; a load record that does not exist is used if and only if it is as listed and there is no memory for it or for the archive |
| FsOpen.FSDeviceMem.PreloadArchive | src/tinyemu/fs_net.c:898-980 | So is every member of a known archive, as part of the archive or alone; if archives are the concatenations of their files, every file still gets its own bytes. It fails only if the archive and a file listed as it is may be loaded and there is no memory for one of them, and does fail if such a file is to be loaded and first named there |
| FsOpen.FSDeviceMem.PreloadFiles | src/tinyemu/fs_net.c:982-1003 | So is everything listed with a file id, file or archive; it fails only at an archive as above |
| FsOpen.FSDeviceMem.Fetch | src/tinyemu/fs_net.c:1032-1037 | Opening a file that is not loaded starts the load of it and of everything listed with it that there is memory for; besides these only loaded files that nobody uses are given up |
| FsOpen.FSDeviceMem.LoadAndWait | src/tinyemu/fs_net.c:1032-1047 | The open then waits for exactly that load |
| FsOpen.FSDeviceMem.Open | src/tinyemu/fs_net.c:1008-1080 | The result in every case: the type errors, 0 exactly when it is a directory or the contents are here or cut to nothing, -P9_EIO exactly when another open waits or memory is short, else 1 and exactly one open waits to be told. And the files after it: a file whose contents are here is unchanged and moves to the front of the cache; one that is cut is empty and local and nothing else changes; when one is to be loaded, it and what is listed with it are, and of the others only loaded ones that nobody uses are given up, least recently used first. It fails only at an archive listed with the file as above |
| FsOpen.FSDeviceMem.StopLoad | src/tinyemu/fs_net.c:351-362 | A load is given up with its file: an archive gives up its parts and answers their opens with -P9_EIO, a part leaves the list of its archive |
| FsOpen.FSDeviceMem.Free | src/tinyemu/fs_net.c:329-385 | A freed file leaves the table, the cache and its size, and what is being transferred for it; nothing else changes but the parts of an archive |
| FsOpen.FSDeviceMem.Do | src/tinyemu/fs_net.c:329-1080 | Each event changes the files, their contents, the cache, handles, answers and tokens exactly as stated for it, and an open returns what is stated |
| FsOpen.FSDeviceMem.Run | src/tinyemu/fs_net.c:329-1080 | In any run of opens, transfers, edits, changing names and freed inodes each event has its effect, and: as many tokens are given out as opens returned 1, each is answered at most once, and exactly once when all transfers have ended; the cache lists the loaded files and its size is the sum of theirs; each holds its size in bytes of the server, its own ones if archives are concatenations. The run stops only at an open for an archive without memory |
| FileNames.NameRead | src/tinyemu/build_filelist.c:41-68 | A printed name that fits is read back unless it is misread |
| FileNames.MisreadLost | src/tinyemu/fs_utils.c:122-188 | A name printed unquoted that begins with a double quote never comes back: the exact condition |
| FileNames.QuotedStrRead | src/tinyemu/fs_utils.c:85-188 | The quoting used for tags carries the empty string too |
| FileNames.PrintedAsIs | src/tinyemu/build_filelist.c:41-68 | A name is printed unquoted exactly if all its characters are among 33 to 126 |
| FileNames.EscapedRead | src/tinyemu/fs_utils.c:122-188 | Escapes are undone, character by character |
| FileNames.HexDigits | src/tinyemu/fs_utils.h:56-66 | A character is taken as a hexadecimal digit, of either case, exactly if it is one |
| FileNumbers.UintRead | src/tinyemu/fs_utils.c:190-224 | A decimal number is read back, base 0 included |
| FileNumbers.ModeRead | src/tinyemu/fs_utils.c:190-201 | An octal mode is read back |
| FileNumbers.FileIdRead | src/tinyemu/fs_utils.c:250-253 | A hexadecimal file id is read back |
| FileNumbers.PrefixedRead | src/tinyemu/fs_utils.c:190-201 | Where the base is 16 or left open a number with the prefix 0x is read as hexadecimal |
| FileNumbers.OctalRead | src/tinyemu/fs_utils.c:190-201 | Where the base is left open a number with a 0 in front is read as octal |
| FileNumbers.SignedRead | src/tinyemu/fs_utils.c:190-201 | A negative number wraps around 64 bits, and one that is too large becomes the largest |
| FileNumbers.TimeRead | src/tinyemu/fs_utils.c:226-248 | A time is read back to the nanosecond |
| FileList.LineRead | src/tinyemu/fs_net.c:1917-2019 | A line is read back field by field |
| FileList.EmptyLine | src/tinyemu/fs_net.c:1918-1936 | An empty line is passed over, unless a comment, the end of the directory or the end of the text follows: then the list is refused |
| FileList.CommentLine | src/tinyemu/fs_net.c:1918-1936 | A comment is passed over whatever it says; a line that begins with a dot ends the directory |
| FileList.RoundTrip | src/tinyemu/fs_net.c:1906-2033 | Loading what was printed rebuilds the tree with the file ids given out |
| FileList.SampleLine | src/tinyemu/build_filelist.c:116-201 | The printed form of one file, field by field |
| FileListTools.ScanState.PrintStr | src/tinyemu/build_filelist.c:41-68 | The printed form of a name |
| FileListTools.ScanState.PrintFraction | src/tinyemu/build_filelist.c:158-165 | The digits of the nanoseconds |
| FileListTools.ScanState.ScanDir | src/tinyemu/build_filelist.c:116-201 | The text, the ids and the sizes of a tree; false if and only if the quota is exceeded |
| FileListTools.Aligned | src/tinyemu/build_filelist.c:103-115 | Sizes are rounded up to whole blocks of 4096 bytes |
| FileListTools.SkipLineAt | src/tinyemu/fs_utils.c:74-83 | The rest of the text after the line |
| FileListTools.ParseFnameAt | src/tinyemu/fs_utils.c:122-188 | The name at a cursor, or that there is none |
| FileListTools.ParseUintAt | src/tinyemu/fs_utils.c:190-214 | The number at a cursor, or that there is none |
| FileListTools.ParseTimeAt | src/tinyemu/fs_utils.c:226-248 | The time at a cursor, or that there is none |
| FileListTools.LoadRec | src/tinyemu/fs_net.c:1906-2033 | The tree a text holds, or that a line cannot be read |
| FileListTools.PrintAndLoad | src/tinyemu/build_filelist.c:116-201 | Both programs in turn give back the tree |
| Dma.PageFollows | src/connectal/dmaSendFd.h:72-99 | Pages follow one another without gaps and never grow |
| Dma.FewPages | src/connectal/dmaSendFd.h:108-131 | Below 2^31 bytes the page count fits a byte |
| Dma.Append | src/connectal/dmaSendFd.h:77-99 | Taking the largest page that fits keeps the list contiguous, aligned and descending |
| Dma.LevelFound | src/connectal/dmaSendFd.h:108-131 | The first size whose border an offset is below is that of the page that holds it |
| Dma.Lookup | src/connectal/dmaSendFd.h:66-131 | For every offset the entry found by border and index holds it, and translates it to the object's address |
| Dma.LargestPage | src/connectal/dmaSendFd.h:84-91 | The largest page that fits |
| Dma.BordersOf | src/connectal/dmaSendFd.h:108-121 | The borders and byte-wide index offsets accumulated by the loop |
| Dma.SendToPortal | src/connectal/dmaSendFd.h:66-131 | The first page is at the object's base, each next one where the last ended and no larger, the last one ends at the object's size rounded up to a page; the borders are those of the pages |
| Dma.LaidContiguous | src/connectal/dmaSendFd.h:72-99 | A list of the pages of four sizes, largest first, is contiguous |
| PciIrq.Rotation | src/tinyemu/pci.c:63-68 | Per device the rotation of pins is a permutation |
| PciIrq.NextSlot | src/tinyemu/pci.c:63-68 | Slot 1 leaves the pins as they are and every next slot moves them on by one; the functions of a slot are alike |
| PciIrq.LineLevel | src/tinyemu/pci.c:70-91 | A controller line is high if and only if an asserted pin is routed to it |
| PciIrq.BitChanged | src/tinyemu/pci.c:70-91 | One bit per device and line is enough |
| PciIrq.LineDriven | src/tinyemu/pci.c:496-513 | Lines that share a controller line do not disturb each other |
| PciIrq.I440FXState.PciDeviceSetIrq | src/tinyemu/pci.c:70-91 | A pin change keeps all of it |
| PciIrq.I440FXState.I440fxSetIrq | src/tinyemu/pci.c:496-513 | After a bus line is driven every controller line is the OR of the bus lines routed to it; of the routes only that of the line loses its top bit, and all lead where they did |
| PciIrq.I440FXState.Run | src/tinyemu/pci.c:63-513 | After any sequence of pin changes each controller line is the OR of the pins routed to it |
| PciIrq.LastChange | src/tinyemu/pci.c:70-91 | A pin is asserted if and only if its last change was to high |
| PciBar.BarLowBits | src/tinyemu/pci.c:256-278 | For every type and size, a register holds all bits of the region type and, below its size, no others; the ROM's only its enable bit |
| PciBar.BarHolds | src/tinyemu/pci.c:256-278 | After a write the address decoded is the multiple of the size at or below the value written, and the other bits are those of the type, or the enable bit of the ROM, for every region whose type lies below its size |
| PciBar.BarSized | src/tinyemu/pci.c:256-278 | Writing all ones reads back 2^32 less the size, plus the type: how a guest finds the size |
| PciBar.OrBit | src/tinyemu/pci.c:256-278 | A bit of the value stored is set exactly if it is set in the address or in the type |
| PciBar.AndNotBit | src/tinyemu/pci.c:280-338 | Writing the status register clears exactly the bits written as ones |
| PciBar.ByteStored | src/tinyemu/pci.c:280-338 | Which bytes take what is written to them one at a time, exactly |
| PciBar.FixedKept | src/tinyemu/pci.c:280-338 | No run of writes changes the identification, the class, the header type or the interrupt pin |
| PciBar.IoByMemoryBit | src/tinyemu/pci.c:211-254 | A device whose I/O region guest writes map with the I/O bit clear |
| PciBar.AlignedExactly | src/tinyemu/pci.c:256-278 | Every write to a register keeps the type bits of all registers if and only if its address is aligned |
| PciBar.EnabledAsSpecified | src/tinyemu/pci.c:211-254 | The mapping rule is that of the PCI specification except for an I/O region under the memory bit alone: exactly when |
| PciBar.WrittenRegisters | src/tinyemu/pci.c:280-338 | No byte write reaches a register |
| PciBar.BarStored | src/tinyemu/pci.c:256-278 | A register write keeps every other register |
| PciBar.PCIDevice.PciRegisterBar | src/tinyemu/pci.c:183-209 | A region registered before guest writes is not mapped, and its register is the word that belongs to it |
| PciBar.PCIDevice.PciUpdateMappings | src/tinyemu/pci.c:211-254 | Every mapping is what command and register say |
| PciBar.PCIDevice.PciWriteBar | src/tinyemu/pci.c:256-278 | The register's new value, the address in it being the multiple of the size at or below the one written, and every mapping in step, at any address |
| PciBar.PCIDevice.PciConfigWrite8 | src/tinyemu/pci.c:280-338 | What a byte write does to each kind of byte |
| PciBar.PCIDevice.PciConfigWrite | src/tinyemu/pci.c:341-368 | A write of any size and address leaves the configuration space as stated, a register with the address written, and every mapping in step with it |
| PciBar.PCIDevice.GuestWrites | src/tinyemu/pci.c:183-368 | After any run of them every mapping is a decode of command and registers |
| PciBridge.RoutedAligned | src/tinyemu/pci.c:464-480 | The bridge passes a device at most one write, and no 32-bit write that is not aligned |
| PciBridge.Addressed | src/tinyemu/pci.c:371-480 | An address of bus, device and register in the address port leads a data write to that register, and to that byte of it, of that device and no other |
| PciBridge.I440FX.WriteDataPort | src/tinyemu/pci.c:371-480 | The device addressed gets the write, and any other none |
| PciBridge.I440FX.Run | src/tinyemu/pci.c:371-480 | After any writes to the two ports every mapping is a decode of command and registers and every register holds the bits of its region's type, with no condition on the writes |
| Ide.GetSet | src/tinyemu/ide.c:337-368 | Setting a sector number and getting it is the identity, by LBA and by CHS; the registers name a sector and the mode and drive bits stay |
| Ide.SectorOrder | src/tinyemu/ide.c:337-350 | The sector number is that of the registers in their order, by LBA and by CHS, and stays below the size of the addressing |
| Ide.Advanced | src/tinyemu/ide.c:401-418 | After a transfer the registers say where to go on and how many sectors are left |
| Ide.BufferStored | src/tinyemu/ide.c:428-474 | The buffer reaches exactly its sectors |
| Ide.IDEState.ReadSectors | src/tinyemu/ide.c:370-399 | The next transfer is of as many sectors as are left, up to the size of a transfer; error, at once, or later |
| Ide.IDEState.ReadCallback | src/tinyemu/ide.c:401-418 | The sectors are in the buffer and the host may read them |
| Ide.IDEState.DataReadW | src/tinyemu/ide.c:734-753 | A word read; the index stays in the buffer; a command that ends without error is done |
| Ide.IDEState.DataWriteW | src/tinyemu/ide.c:714-732 | A word written; likewise |
| Ide.IDEState.SectorWrite | src/tinyemu/ide.c:476-487 | The host may fill the buffer with as many sectors as are left, up to the size of a transfer |
| Ide.IDEState.WriteCallback | src/tinyemu/ide.c:454-474 | The disk has the sectors; on to the next or to the end, with the drive ready |
| Ide.IDEState.ExecRead | src/tinyemu/ide.c:526-547 | A read command starts, in transfers of one sector or of as many as set for multiple ones, or is refused exactly when multiple transfers are off or the disk fails |
| Ide.IDEState.ExecWrite | src/tinyemu/ide.c:531-553 | A write command starts, likewise, or is refused exactly when multiple transfers are off |
| Ide.BitTest | src/tinyemu/ide.c:514-515 | The bit test of the code holds of the powers of two and of 0, and of nothing else |
| Ide.IDEState.ExecSetMult | src/tinyemu/ide.c:512-525 | A power of two up to 128, or 0, is taken; anything else is an error |
| Ide.IDEState.RunRead | src/tinyemu/ide.c:370-426 | A whole read gives the host exactly sectors L to L+N-1 in order, N being 256 for a count of 0 |
| Ide.IDEState.RunWrite | src/tinyemu/ide.c:428-487 | A whole write changes exactly those sectors |
| Xsim.SplitKeeps | src/connectal/transportXsim.c:31-54 | No word is lost, repeated or moved |
| Xsim.SplitJoined | src/connectal/transportXsim.c:31-54 | A stream of well-formed messages splits into exactly those |
| Xsim.XsimPortals.IndMsgSource | src/connectal/transportXsim.c:31-54 | A word of a message that fits the client's buffer extends what its portal has received, and no other portal changes |
| Xsim.Run | src/connectal/transportXsim.c:31-54 | For any interleaving each client's handler is called once per message of its portal, in order, with its words |
| Xsim.WholeMessages | src/connectal/transportXsim.c:31-54 | For well-formed messages those are the calls |
| Xsim.WholeMessagesFit | src/connectal/transportXsim.c:75-80 | A stream of well-formed messages fits a buffer if and only if each of them does |
| Xsim.Framed | src/connectal/transportXsim.c:82-108 | What a sender puts on the channel is a well-formed message |
| Packers.RdataRoundTrip | src/generated/AWSP2_Request.c:134-145 | Arguments of a read reply are decoded as sent |
| Packers.RdataLayout | src/generated/AWSP2_Request.c:134-145 | On the wire the fields follow one another in order, each in its own width and the last one lowest |
| Packers.BdoneRoundTrip | src/generated/AWSP2_Request.c:147-155 | Arguments of a write reply are decoded as sent |
| Packers.BdoneLayout | src/generated/AWSP2_Request.c:147-155 | Likewise |
| Packers.DdrWriteRoundTrip | src/generated/AWSP2_Request.c:64-93 | A line of memory with its enable bits is decoded as sent |
| Packers.DdrWriteLayout | src/generated/AWSP2_Request.c:64-93 | Likewise: the address, the bytes of the line from the first, the enable bits |
| Packers.BurstRoundTrip | src/generated/AWSP2_Response.c:48-68 | Read and write addresses are decoded as sent |
| Packers.BurstLayout | src/generated/AWSP2_Response.c:48-68 | Likewise |
| Packers.WdataRoundTrip | src/generated/AWSP2_Response.c:70-80 | A beat of write data is decoded as sent |
| Packers.WdataLayout | src/generated/AWSP2_Response.c:70-80 | Likewise |
| Messages.WireRead | src/generated/AWSP2_Request.c:134-154 | A call packed, framed and handled gives back its method and arguments |
| Messages.Deliver | src/connectal/transportXsim.c:31-54 | For any interleaving of portals each handler is called once for each call made on its portal, in order, and unpacks the arguments sent |
| Axi.DoneExactly | src/fpga.cpp:258-319 | Each burst gets one answer with its own id once all its beats and those before have come, and not before |
| Axi.BeatsAsAsked | src/fpga.cpp:190-192 | A burst takes awlen/8 beats if and only if awlen is at least 8 |
| Axi.QueueTells | src/fpga.cpp:258-319 | What the queue says is done is what the beats say |
| Axi.AWSP2.IoAwaddr | src/fpga.cpp:190-204 | The burst is queued behind the others |
| Axi.AWSP2.IoWdata | src/fpga.cpp:258-319 | A beat is counted for the burst at the front |
| Axi.AWSP2.IoAraddr | src/fpga.cpp:206-256 | The beats of one read are sent |
| Axi.AnswerMarked | src/fpga.cpp:206-256 | A read is answered by arlen/8 beats with its id, last set on the final one only; a read of the host's input by one |
| Axi.ReadsTold | src/fpga.cpp:206-256 | In any run, cutting the beats after each one marked last gives back the answers of the reads in order |
| Axi.AWSP2.Run | src/fpga.cpp:190-319 | In any run where write data follows its address, the answers are those the addresses and the number of beats determine, and the read beats sent are the answers of the read addresses in order |

## Left out

- Aes: the table constants themselves; the tables are the formulas of the comment at the head of the file.
- DecryptFile.DecryptFileState.Decrypt: a write callback that fails is not modelled, because the one in use never does.
- DecryptFile.DecryptFileState.Flush: a write callback that fails is not modelled, because the one in use never does.
- BlockNet.BlockDevice.StartLoadPrefetchGroup: parsing the image description, the configuration file and timing are not modelled.
- BlockNet: a failed block transfer, after which the program exits.
- FsNames.FSDeviceMem.InodeFree: what a regular file has in the cache and what is being transferred for it are those of `FsOpen.FSDeviceMem.Free`; the references to URLs are left out.
- FsNames.FSDeviceMem.RenameAt: not onto itself, after which the code uses the entry it has just freed.
- FsNames.FSDeviceMem.Run: `inode_cache_size` is accounted for in FsOpen, not here.
- FsNames.FSDeviceMem.SetSize: only the accounting of a successful resize; the checks and the contents are those of `FsFile.RegFile.Truncate`.
- FsNames: times, `readdir`, `stat`, locks, and the teardown of the whole filesystem.
- FsFile: files that are commands.
- FsOpen.FSDeviceMem.OpenWget: decryption is that of DecryptFile, of which the plain text arrives here.
- FsOpen.FSDeviceMem.Open: of the flags, only those for directories and for truncation matter here; open counts are the handles on a file, which FsNames proves the counters to be.
- FsOpen: how names lead to inodes (a map that events change), and calls made from inside a completion function.
- FileListTools.ScanState.ScanDir: reading the host's directories and copying the files are not modelled; the tree is given.
- FileListTools.LoadRec: building the inodes as lines are read is not modelled; the entries are returned.
- Dma.SendToPortal: the check of the file descriptor, and the kernel's and the hardware's variants.
- PciIrq: words of bits are sets of bit numbers; the routing registers are not rewritten while pins change.
- PciBridge: one of the devices on the bus is followed; reads of the ports are not modelled.
- PciBar: capabilities, reads of configuration space, and header types other than 0.
- Ide: the identify command, drive selection, resets and the interrupt line.
- Xsim: messages without arguments, which are sent with one word more than their header says.
- Messages: the calls of the two interfaces other than the six whose packing is modelled.
- Axi.AWSP2.IoAraddr: the values a device answers are given; what the beats of a write do to devices is not modelled.
- SharedRing: passing file descriptors and the socket the ring is set up over.
- Operating-system plumbing, sockets, simulators, the command line, and code behind library calls.
