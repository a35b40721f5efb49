# DELOS 2.0 in Dafny

A model of the parts of the DELOS 2.0 kernel that manage something over and over again: the
FAT file system, the heap, physical frames and page tables, the address spaces of processes, the
scheduler with its linked lists, and the pair `itoa`/`atoi`. Each part keeps the form it has in the
kernel. What the kernel updates in place is an array or a field here, its loops are loops, and its
linked lists are linked nodes.

Each part has two layers, and sometimes three:

* a *specification*: a pure function for every operation, on an abstract state (`FsSpec`, `HeapSpec`,
  `PagingSpec`, `ProcessSpec`, `SchedSpec`);
* the *operations*: methods of a class over arrays or nodes, proved to do to the abstract state exactly
  what the specification says (`Vfs`, `Heap`, `Paging`, `Processes`, `Lists`, `Scheduler`);
* the *properties*: lemmas about the specification, over every input and every run (`FsProps`, `FsRuns`,
  `FsCalls`, `SchedProps`, `SchedRuns`, `SchedResults`, and the second halves of the other specifications).
  What an operation leaves is stated there without naming its specification: in bytes, blocks, pages, queues.

| file | what is in it |
|---|---|
| `Bytes`, `FsLayout` | little-endian words; the 25-byte directory record and where records lie in clusters |
| `FsChains`, `FsState` | chains of clusters in the FAT, the directory in memory, and how both change |
| `FsFirstFit`, `FsPlan` | first fit, and where everything lies after any call or run, told from the state before it |
| `Vfs`, `FsDriver` | vfs.cpp over the FAT and one flat array of cluster bytes; whole runs |
| `Common`, `Streams` | print_to_stream as a run of calls, and a terminal's log over any number of prints |
| `FsSpec`, `FsCalls`, `FsProps`, `FsRuns` | the observable disk; how each call ends; append, insert, copy and cluster accounting; runs as runs on a map |
| `FsLike` | disks that differ in the bytes of some files |
| `FsBoot`, `FsSpill` | the boot sequence, and two runs from there in which the directory and a file meet |
| `HeapSpec`, `Heap` | heap.cpp as a list of blocks, and over the bytes of packed 9-byte headers |
| `PagingSpec`, `Paging`, `PageRuns` | paging.cpp: the frame bitmap and the two-level tables of section 4.3 of the Intel SDM, volume 3A; runs of allocations and releases |
| `ProcessSpec`, `Processes` | who owns which frame across creation, fork and kill |
| `Lists`, `SchedSpec`, `SchedProps`, `SchedRuns`, `Scheduler` | list.cpp, and the scheduler as a transition system with its interrupts and system calls |
| `SchedResults` | what every interrupt and system call leaves: results, queues, deaths, and whom Ctrl-C hits |
| `Numerals` | itoa and atoi with their mixed signed and unsigned arithmetic |

`dafny verify dfyconfig.toml` checks everything.

## What holds only under a condition

Several things one expects of this kernel do not hold on all inputs. The code is modelled as it is, and
the condition under which it does what it is for is proved to be exact.

* **append_data** appends if and only if the file has `size / 64 + 1` data clusters, or nothing is to be
  appended (`FsProps.AppendIsConcatenation`). An append keeps that shape if and only if the new size is
  not a multiple of 64 (`RoomAfterAppend`). `AppendToFullCluster` is an input on which it fails.
* **write** below the end of the file inserts if and only if the old size is not a multiple of 64 and,
  unless nothing is written, neither is `offset + len` (`WriteIsInsertion`). `InsertIntoFullClusters` is an
  input on which it fails. In the last cluster of a file that fills it the length of the tail wraps to almost
  2^32: the second append finds no room for that, write reports success, and the tail is lost (`TailLost`). An
  insertion whose tail spans a further data cluster loses one cluster for good (`InsertStrands`).
* **cp** reports a failure for a source that does not fit only when its destination is already an empty file
  (`FsCalls.CpRefused`). Over a system file it loses all data clusters of that file but one (`CpConserves`; the cluster that
  ends the file is counted apart).
* A call does to the files what it would do to a map from names to byte strings, and leaves room in every
  last cluster, if and only if a condition on the sizes and the free clusters holds before it
  (`FsRuns.CleanExactly`, and `CleanRunExactly` for runs).
* **save_root_folder** stays inside its own clusters if and only if there are at most 6 records, or 8
  (`FsLayout.FitsExactly`). For other counts the last copy goes on into the clusters behind the directory's
  last one, which by first fit is told from the FAT before the save (`FsState.LastOfRoot`). The directory
  itself is always stored whole and read back. The files whose data that copy reaches are the set
  `FsState.Reached` of the state before; every save adds exactly these to the model's set `hit`, and writes
  no other byte (`Saved`). All results about the memory hold with the files in `hit` excepted, of which only
  the bytes are left open, not the size or the chain.
* Which files are in `hit` is exact for every call and every run, whatever the number of files. A *plan* is
  where everything lies (the free clusters and all chains) and the set `hit`; `Vfs.FileSystem.At` is that of
  the memory. `FsPlan.StepPlan` and `RunPlan` tell the plan after a call and after a run from the plan before,
  from sizes, names and the number of free clusters, by first fit. After every call and every run the memory
  has exactly that plan (`FsDriver.Call`, `Run`, `RunClean`). A call hits nothing while the directories that
  it saves fit (`SavesFit`, `StepSpares`), and so does a run (`RunFits`, `RunSpares`), for instance while
  there are at most 6 files (`FewFit`). After booting there are 7 records: `FsBoot.Boot` proves the exact
  state, in which a save hits nothing (`FsSpill.StartIsClean`), and the first append of 35 bytes to primes.dat
  goes over 11 bytes of that file (`AppendThenSpill`).
* **append_data** without space, **write** below the end and **cp** may write a file's data over the directory,
  if that cluster is among those that the overlong copy reached. The model stops there with the fault
  `DirectoryHit`, exactly when `FsPlan.StepStops` holds of the state before the call, and in a run exactly when
  `RunStops` holds of its start. `FsSpill.OverrunOnFullDisk` is a run of three calls from the booted system
  that ends so.
* **get_free_cluster** may hand out cluster 0xFFE, whose number means "free" when it is stored as a link.
  It does so only when that is the last free cluster, and the model stops there with the fault
  `SentinelLink`. `TouchHalts`, `AppendHalts` and `CpHalts` say exactly when, and `TouchTakesTheLast` is an
  input; an insertion never does, because its guard counts more clusters than it takes and no disk has room for
  a tail whose length has wrapped (`InsertHalts`).
  Cluster 0xFFD does no harm, because nothing ever tests for the "taken" mark. The panic for a full disk is
  unreachable in every legal run (`FsRuns.GuardsSuffice`).
* **print_to_stream** appends what it is given, if there is space, if and only if no line break follows a
  buffer that fills the last cluster (`Common.PrintsExactly`). `LineOf64` is an input on which it loses the
  line break.
* **Creating a process** panics if and only if there are fewer free frames than its program needs in the end,
  or fewer free pages of the kernel than it needs at the worst moment (`Processes.Do`, `FramesFor`,
  `PeakFor`). Killing one never panics, and gives back less than was taken.
* **heap_malloc** looks at the first, third, ... block of every row of free blocks, together with the one behind
  it. It returns NULL if and only if no such pair, or single last block, fits (`NullOnBlocks`), and so it can refuse a request that contiguous free blocks could meet together
  (`ContiguousButRefused`); asking again often enough succeeds (`RetrySucceeds`). A size within 9 of 2^32
  wraps, and that is exactly when a block that is handed out is too small, or its header is laid over
  another one (`WrapExactly`).
* **allocate_segment** leaves the last page of a segment mapped in the kernel if and only if the segment
  spans more pages than its bytes need, which for a segment on a page boundary means that its size is a
  multiple of 4096 (`SpannedExactly`, `LoadSegments`).
* **itoa_dec** writes the number modulo 2^32, and `atoi` reads it back: a number comes back as itself if
  and only if it is not negative (`Numerals.RoundTrip`).

Where comments in the source and the code disagree the model follows the code: `paging_init` locks the
first 8 MB and not 4 (kernel/src/mem/paging.cpp:54-59), and a process's heap has three tables of pages,
12 MB, of which it uses 8 (kernel/include/processes/process.h:23-26). Further results that a reader may not
expect: `read` returns 1 for a request out of range and also for every request that the first cluster
serves alone, although the bytes are delivered (kernel/src/fs/vfs.cpp:794-796); `touch` and `append_data`
report success when they ran out of space; `wait` waits for any child, not for the one it names.

## Model

| member | source | states |
|---|---|---|
| `Bytes.LE32RoundTrip` | kernel/include/fs/vfs.h:28-29 | the 32-bit fields of a record survive being stored in little-endian order |
| `FsLayout.CStringOfPadded` | kernel/src/fs/vfs.cpp:88-94 | a name that was cut to 15 characters is what is read back from its 16-byte field |
| `FsLayout.RecRoundTrip` | kernel/include/fs/vfs.h:26-32 | a directory record is what is read back from its 25 bytes, both flags included |
| `FsLayout.ClustersNeeded` | kernel/src/fs/vfs.cpp:130-137 | the least number of clusters that holds an object of that size |
| `FsLayout.FitsExactly` | kernel/src/fs/vfs.cpp:181-246 | the last copy of the directory stays inside its 64 bytes if and only if there are at most 6 records, or 8 |
| `FsLayout.RootClustersFacts` | kernel/src/fs/vfs.cpp:181-246 | a directory of up to two records takes one cluster, and one more record takes at most one more cluster |
| `FsLayout.StoreInCluster` | kernel/src/fs/vfs.cpp:181-246 | records that are copied to a cluster above all earlier ones are stored, and the overlong copy harms no earlier record |
| `FsLayout.RootImageFrame` | kernel/src/fs/vfs.cpp:181-246 | the stored directory depends on the bytes that its saving wrote, and on no others |
| `FsLayout.RootImageSpared` | kernel/src/fs/vfs.cpp:599-601 | a write to a cluster that is none of the directory's, before its last one or behind the end of the last copy, leaves the directory in place |
| `FsChains.ChainDetermined` | kernel/src/fs/vfs.cpp:96-113 | the FAT determines every chain by its first cluster: two chains with the same start are the same |
| `FsChains.LinkedIsAcyclic` | kernel/src/fs/vfs.cpp:96-113 | clusters that are linked up to an end-of-file entry never repeat, so every walk along a chain ends |
| `FsChains.ExtendOpen` | kernel/src/fs/vfs.cpp:629-643 | a free cluster linked behind a chain is in no chain yet, and all chains stay apart |
| `FsChains.CloseOpen` | kernel/src/fs/vfs.cpp:648-652 | marking the last cluster as end of file closes the chain again |
| `FsChains.CutChain` | kernel/src/fs/vfs.cpp:961-987 | releasing the clusters behind a cut leaves that chain open at the cut and all others as they were |
| `FsChains.DropChain` | kernel/src/fs/vfs.cpp:469-498 | releasing a file's first cluster last removes its chain and no other |
| `Vfs.FileSystem.Format` | kernel/src/fs/vfs.cpp:157-179 | an empty directory is stored in a FAT with 4093 free clusters |
| `Vfs.FileSystem.ExistsNFreeClusters` | kernel/src/fs/vfs.cpp:115-128 | true if and only if at least n clusters are free |
| `Vfs.FileSystem.GetFreeCluster` | kernel/src/fs/vfs.cpp:139-155 | the least free cluster is marked as taken, nothing else changes, and it is not 0xFFE while another one is free |
| `Vfs.FileSystem.LinkNext` | kernel/src/fs/vfs.cpp:629-643 | a chain grows by the least free cluster, which was in no chain, and no other cluster is taken |
| `Vfs.FileSystem.FreeAllOccupiedClusters` | kernel/src/fs/vfs.cpp:96-113 | exactly the clusters behind the first one of the chain become free |
| `FsChains.NthFreeIs` | kernel/src/fs/vfs.cpp:139-155 | a free cluster is the one that first fit takes after as many others as are free below it |
| `FsState.LastIsNth` | kernel/src/fs/vfs.cpp:181-246 | the directory's last cluster is told from the FAT before the save |
| `FsFirstFit.TakenAll` | kernel/src/fs/vfs.cpp:139-155 | clusters that were taken one after the other, each the least free one, are the first of those that were free at the start, and no others are taken |
| `FsFirstFit.TakeLow` | kernel/src/fs/vfs.cpp:139-155 | below n all clusters but some gaps are taken: first fit fills the gaps in order and goes on behind n |
| `FsFirstFit.BareCut` | kernel/src/fs/vfs.cpp:961-987 | a cut releases the data clusters behind the new end and nothing else |
| `FsState.SpilledFiles` | kernel/src/fs/vfs.cpp:222-238 | saving the directory changes bytes of the files it reaches and of no others, and no size or chain |
| `FsPlan.SavePlanIs` | kernel/src/fs/vfs.cpp:181-246 | what a save does to the plan is what the FAT before it says: the chain by first fit, and exactly the files reached |
| `FsPlan.StepFit` | kernel/src/fs/vfs.cpp:349-996 | after any call the plan has a chain for every file, of the length that the specification's disk says |
| `FsPlan.StepPlanLike` | kernel/src/fs/vfs.cpp:349-996 | the plan after a call, and whether data goes over the directory, do not depend on any file's bytes |
| `FsPlan.StepSpares` | kernel/src/fs/vfs.cpp:181-246 | a call whose directories all fit hits no file but a copy of one that was hit, and overwrites no directory |
| `FsPlan.RunSpares` | kernel/src/fs/vfs.cpp:181-246 | a run whose directories all fit hits nothing and overwrites no directory |
| `FsPlan.FewFit` | kernel/src/fs/vfs.cpp:181-246 | with at most 6 files, those the run may create counted, they all fit |
| `FsPlan.CpPlanHits` | kernel/src/fs/vfs.cpp:699-726 | a copy of a file that was hit counts as hit |
| `FsPlan.RunsOn` | kernel/src/fs/vfs.cpp:349-996 | a run in two parts does to the disk and to the plan what one part after the other does |
| `Vfs.FileSystem.SaveRootFolder` | kernel/src/fs/vfs.cpp:181-246 | the directory is stored whole by first fit: its chain and the free clusters are told from the FAT before, exactly the files that its last copy reaches are hit, no other byte is written; panic, sentinel and success exactly by the number of free clusters |
| `Vfs.FileSystem.StoreFirst` | kernel/src/fs/vfs.cpp:195-203 | the count and the first two records are in cluster 0 |
| `Vfs.FileSystem.StoreNext` | kernel/src/fs/vfs.cpp:222-238 | one more cluster, above the ones before, holds the next records |
| `Vfs.FileSystem.CloseRoot` | kernel/src/fs/vfs.cpp:240-245 | the directory's chain ends in its own end-of-file cluster and it is whole, also when its last copy went over data of files, which are then exactly those hit |
| `Vfs.FileSystem.LoadRootFolder` | kernel/src/fs/vfs.cpp:248-300 | the records that were saved are read back, in the same order, whether or not the save hit a file |
| `Vfs.FileSystem.ResaveRoot` | kernel/src/fs/vfs.cpp:365-372 | freeing the directory and saving it again does to the disk what Resave says; the new chain, the free clusters and the files hit are told from the state before |
| `Vfs.FileSystem.GetFile` | kernel/src/fs/vfs.cpp:500-509 | the first record with the name, or none |
| `Vfs.FileSystem.CreateFile` | kernel/src/fs/vfs.cpp:376-409 | the two least free clusters are linked to an empty file and its record is added at the end; with fewer than two free ones nothing happens |
| `Vfs.FileSystem.Touch` | kernel/src/fs/vfs.cpp:349-374 | refines FsSpec.Touch: a new empty file at the end of the directory or, for a name that exists, no change; all chains, the free clusters and the files that are hit are told from the state before |
| `Vfs.FileSystem.DeleteFile` | kernel/src/fs/vfs.cpp:469-498 | one record goes, the order of the others stays, and exactly the clusters of its chain become free |
| `Vfs.FileSystem.DeleteAndSave` | kernel/src/fs/vfs.cpp:411-467 | the file is gone from the saved directory; exactly the files that the save reaches are hit, told from the FAT before |
| `Vfs.FileSystem.Rm` | kernel/src/fs/vfs.cpp:437-467 | refines FsSpec.Rm: a missing or a system file is refused; all chains, the free clusters and the files that are hit are told from the state before |
| `Vfs.FileSystem.DeleteSystemFile` | kernel/src/fs/vfs.cpp:411-435 | refines FsSpec.DeleteSystemFile: as rm, without regard to the system flag; exactly the files that the save reaches are hit |
| `Vfs.FileSystem.IsFileOpen` | kernel/src/fs/vfs.cpp:819-835 | true if and only if the file exists and is open |
| `Vfs.FileSystem.SaveFlags` | kernel/src/fs/vfs.cpp:837-887 | only the flags of one record change; exactly the files that the save reaches are hit |
| `Vfs.FileSystem.SetAsSystemFile` | kernel/src/fs/vfs.cpp:837-851 | the system flag is set unless the file is open, and nothing else changes but for the files that the save hits |
| `Vfs.FileSystem.OpenFile` | kernel/src/fs/vfs.cpp:853-869 | a file that is open already is refused, otherwise only its flag changes, and exactly the files that the save reaches are hit |
| `Vfs.FileSystem.CloseFile` | kernel/src/fs/vfs.cpp:871-887 | a file that is not open or not there is refused, otherwise only its flag changes, and exactly the files that the save reaches are hit |
| `Vfs.FileSystem.LastCluster` | kernel/src/fs/vfs.cpp:588-593 | the walk ends at the cluster before the end-of-file cluster |
| `Vfs.FileSystem.StoreHead` | kernel/src/fs/vfs.cpp:585-601 | the first bytes go where the size says the last cluster has room, and nowhere else |
| `Vfs.FileSystem.StoreRest` | kernel/src/fs/vfs.cpp:618-652 | the rest of the buffer lies over exactly the clusters that were counted, behind the old ones; these are the least free ones once the end-of-file cluster was released |
| `Vfs.FileSystem.AppendData` | kernel/src/fs/vfs.cpp:573-659 | refines FsSpec.Append in all its ends: within the last cluster, over new ones, without space; the files that are hit, and whether the directory is overwritten, exactly as told from the state before |
| `FsSpec.FileOkAfterAppend` | kernel/src/fs/vfs.cpp:573-659 | an append to a file whose last cluster is full always leaves it with fewer clusters than its size calls for |
| `FsProps.AppendIsConcatenation` | kernel/src/fs/vfs.cpp:573-659 | with space the contents become old + buffer if and only if the last cluster had room or the buffer is empty; no other file changes |
| `FsProps.RoomAfterAppend` | kernel/src/fs/vfs.cpp:585-597 | there is room for the next append if and only if the new size is not a multiple of 64 |
| `FsProps.AppendWithoutSpace` | kernel/src/fs/vfs.cpp:599-617 | without space nothing that is stored changes if the last cluster had room; if it was full, exactly its 64 bytes are lost |
| `FsProps.AppendToFullCluster` | kernel/src/fs/vfs.cpp:585-601 | a byte appended to a file of 64 bytes gives a file of 65 bytes in one cluster |
| `Vfs.FileSystem.CutTail` | kernel/src/fs/vfs.cpp:931-987 | the bytes behind the offset are read, the cluster behind the cut becomes the new end and the others but the last are released |
| `Vfs.FileSystem.CutOff` | kernel/src/fs/vfs.cpp:920-987 | the file ends at the offset, and the bytes behind it are handed over; exactly the files that the save reaches are hit |
| `Vfs.FileSystem.Write` | kernel/src/fs/vfs.cpp:889-996 | refines FsSpec.Write: refused past the end, an append at the end, an insertion below; an insertion whose tail's length wraps included; the plan after it, and whether the directory is overwritten, exactly as told from the state before |
| `FsProps.WriteIsInsertion` | kernel/src/fs/vfs.cpp:889-996 | with space, the contents become old[..offset] + buffer + old[offset..] if and only if the old size is no multiple of 64 and, unless the buffer is empty, offset + length is none |
| `FsProps.InsertionSucceeds` | kernel/src/fs/vfs.cpp:889-996 | in the good case no other file changes and the clusters taken and released are exactly counted |
| `FsProps.InsertionFails` | kernel/src/fs/vfs.cpp:988-991 | in every other case the outcome is not the insertion |
| `FsProps.TailLost` | kernel/src/fs/vfs.cpp:991 | a write into the last cluster of a file that fills it ends the file behind what was written; if that ends on a cluster boundary its last 64 bytes become the old tail and zeros |
| `FsProps.InsertIntoFullClusters` | kernel/src/fs/vfs.cpp:991 | a byte inserted into 128 bytes gives a file of 65 bytes |
| `FsProps.InsertStrands` | kernel/src/fs/vfs.cpp:961-987 | an insertion loses one cluster if and only if the tail spans a further data cluster |
| `Vfs.FileSystem.Read` | kernel/src/fs/vfs.cpp:760-817 | exactly the bytes offset..offset+len of the file, over any number of clusters, and which result comes with them |
| `Vfs.FileSystem.ReadOn` | kernel/src/fs/vfs.cpp:798-816 | the loop over further clusters delivers the bytes that follow |
| `Vfs.FileSystem.Cat` | kernel/src/fs/vfs.cpp:519-571 | the pieces handed to the screen make up the file, and each is shorter than the 256-byte buffer |
| `Vfs.FileSystem.Cp` | kernel/src/fs/vfs.cpp:661-730 | refines FsSpec.Cp: missing source, same name, no space, and the copy; the plan after it, which names every file hit, and whether the directory is overwritten, exactly as told from the state before |
| `Vfs.FileSystem.MakeTarget` | kernel/src/fs/vfs.cpp:680-687 | a destination that is there is deleted unless it is a system file, and one that is not is made; all chains, the free clusters and the files hit are told from the state before |
| `Vfs.FileSystem.CopyLoop` | kernel/src/fs/vfs.cpp:714-726 | every data cluster of the source is copied to a cluster of its own, in order; it stops before it fills one that the directory reached, exactly when first fit leads to one; the clusters are told from the FAT before |
| `FsProps.CpCopies` | kernel/src/fs/vfs.cpp:661-730 | after cp the destination has the size and the bytes of the source, and the source and every third file are as they were |
| `FsCalls.OpenThenClose` | kernel/src/fs/vfs.cpp:819-887 | a closed file is opened, and is then not opened again; closing it gives back the disk as it was, and a file that is not open is not closed |
| `FsCalls.CloseMissing` | kernel/src/fs/vfs.cpp:871-875 | closing a file that is not there fails and changes nothing |
| `FsCalls.SystemFileStays` | kernel/src/fs/vfs.cpp:411-467 | a closed file marked as system file is refused by rm and removed by delete_system_file; an open one is not marked |
| `FsCalls.RmExactly` | kernel/src/fs/vfs.cpp:437-467 | result 1 and no change exactly for a missing or a system file; otherwise result 0, and that file alone is gone |
| `FsCalls.DeleteSystemExactly` | kernel/src/fs/vfs.cpp:411-435 | result 1 and no change exactly for a missing file; otherwise result 0, and that file alone is gone |
| `FsCalls.TouchExactly` | kernel/src/fs/vfs.cpp:349-409 | result 1 and no change exactly for a name that is taken; otherwise result 0, and an empty file at the end unless fewer than two clusters are free |
| `FsCalls.WriteExactly` | kernel/src/fs/vfs.cpp:889-918 | result 1 and no change exactly for a missing file, an offset past the end, and an insertion for which 64 times the free clusters are less than the new size |
| `FsCalls.CpRefused` | kernel/src/fs/vfs.cpp:661-697 | result 1 and no change for a missing source and for a copy to itself; result 1 for a source that does not fit, and the destination is then an empty file unless it is a system file or could not be made |
| `FsProps.TouchConserves` | kernel/src/fs/vfs.cpp:349-409 | free clusters and clusters in chains add up to the same before and after |
| `FsProps.DeleteConserves` | kernel/src/fs/vfs.cpp:469-498 | so they do when a file is deleted |
| `FsProps.RmConserves` | kernel/src/fs/vfs.cpp:437-467 | so they do for rm, refused or not |
| `FsProps.FlagsConserve` | kernel/src/fs/vfs.cpp:837-887 | so they do for the flags |
| `FsProps.AppendConserves` | kernel/src/fs/vfs.cpp:573-659 | so they do for append_data, whatever shape the file has |
| `FsProps.CpConserves` | kernel/src/fs/vfs.cpp:661-730 | so they do for cp, unless it writes over a system file: then all of that file's data clusters but one are lost |
| `FsProps.TouchHalts` | kernel/src/fs/vfs.cpp:139-155 | exactly when touch hands out the last free cluster |
| `FsProps.TouchTakesTheLast` | kernel/src/fs/vfs.cpp:139-155 | an input: with two free clusters touch stops on the last one |
| `FsProps.TouchWithoutSpace` | kernel/src/fs/vfs.cpp:349-409 | with fewer than two free clusters touch reports success and leaves the disk as it was |
| `FsProps.AppendHalts` | kernel/src/fs/vfs.cpp:602-652 | exactly when append_data hands out the last free cluster |
| `FsProps.DeleteHalts` | kernel/src/fs/vfs.cpp:469-498 | never for a deletion |
| `FsProps.InsertHalts` | kernel/src/fs/vfs.cpp:889-996 | never for an insertion, with a wrapped tail or without, and it leaves a disk in order |
| `FsProps.InsertNeeds` | kernel/src/fs/vfs.cpp:889-996 | an insertion takes fewer clusters than its guard has counted, unless the tail's length has wrapped |
| `FsProps.CpHalts` | kernel/src/fs/vfs.cpp:689-728 | exactly when cp hands out the last free cluster |
| `FsRuns.StepOk` | kernel/src/fs/vfs.cpp:349-996 | every legal call leaves names distinct and sizes covered, or stops on the last free cluster |
| `FsRuns.GuardsSuffice` | kernel/src/fs/vfs.cpp:115-155 | in no legal run is get_free_cluster's panic reached |
| `FsRuns.StepAccounts` | kernel/src/fs/vfs.cpp:349-996 | each call loses exactly the clusters stated |
| `FsRuns.RunAccounts` | kernel/src/fs/vfs.cpp:349-996 | over any legal run free clusters, clusters in chains and lost ones add up |
| `FsRuns.EmptyDiskAccounts` | kernel/src/fs/vfs.cpp:157-179 | from the empty disk on they add up to all clusters but the directory's end |
| `FsRuns.CleanExactly` | kernel/src/fs/vfs.cpp:349-996 | a call does to the files what it would do to a map from names to byte strings, and leaves room in each, if and only if it is clean: a condition on free clusters, sizes and flags before it |
| `FsRuns.CleanRunExactly` | kernel/src/fs/vfs.cpp:349-996 | a run agrees with the map after each of its calls if and only if every call is clean when its turn comes |
| `FsRuns.StepLike` | kernel/src/fs/vfs.cpp:349-996 | a call on a disk on which some files' bytes differ ends alike, and no other file comes to differ but a copy of such a file |
| `FsRuns.CleanRunIsMapRun` | kernel/src/fs/vfs.cpp:349-996 | a run of clean calls is the run on a map, and every file keeps room for the next append |
| `FsDriver.Call` | kernel/src/fs/vfs.cpp:349-996 | one call on the arrays refines one step of the specification; it leaves exactly the plan that StepPlan tells from the state before, and the directory is overwritten exactly if StepStops holds then |
| `FsDriver.CallLike` | kernel/src/fs/vfs.cpp:349-996 | so does a call on a disk on which files were hit, with these excepted; plan and stop are those told from the disk without damage |
| `FsDriver.Run` | kernel/src/fs/vfs.cpp:349-996 | a whole run on the arrays refines the run of the specification, never meets the panic, and accounts for every cluster; which files are hit, where everything lies in the end and whether the directory is overwritten are told exactly from the start |
| `FsDriver.RunClean` | kernel/src/fs/vfs.cpp:349-996 | a clean run on the arrays leaves what a map would hold, but for the files that RunPlan tells from the start; it stops only if RunStops holds then, and leaves exactly the map while the directories fit |
| `FsBoot.CreateDefaultFile` | kernel/src/fs/vfs.cpp:35-57 | a default file is there with its text and room for more, in the clusters that first fit tells |
| `FsBoot.FsInit` | kernel/src/fs/vfs.cpp:157-179 | the disk after fs_init: three files, with 4081 clusters free, in the exact chains |
| `FsBoot.StartShell` | kernel/src/processes/scheduler.cpp:226-229 | the log of a shell: an empty system file at the end of the directory |
| `FsBoot.Boot` | kernel/src/processes/scheduler.cpp:212-240 | the disk as the system starts: three default files and four empty logs, 4072 clusters free, all chains exactly, and no file hit although the last saves do not fit |
| `FsSpill.StartIsClean` | kernel/src/fs/vfs.cpp:181-246 | saving the directory of 7 records after booting moves nothing and hits nothing, because its last copy reaches the end of primes.dat only |
| `FsSpill.AppendThenSpill` | kernel/src/fs/vfs.cpp:222-238 | after booting one append of 35 bytes to primes.dat hits that file, in the first 11 bytes of its third cluster; all chains then, exactly |
| `FsSpill.OverrunOnFullDisk` | kernel/src/fs/vfs.cpp:599-617 | after booting three legal calls, the last an append that finds no room, lead to a write over the directory's last record |
| `Common.GetFileSize` | kernel/src/fs/vfs.cpp:998-1007 | the size in the directory, and 0 for a file that is not there |
| `Common.PrintWrites` | kernel/src/common.cpp:23-29 | the two writes append the text and the line break, also when the file then ends on a cluster boundary |
| `Common.PrintsExactly` | kernel/src/common.cpp:22-29 | with space the log holds what it held and the printout if and only if no line break follows a buffer that fills its last cluster |
| `Common.LineOf64` | kernel/src/common.cpp:22-29 | an input: a line of 64 characters in an empty log loses its line break, and the file claims 66 bytes in one cluster |
| `Common.ReadEnd` | kernel/src/common.cpp:32-36 | the last 200 bytes of the file: byte k is byte size - 200 + k of it |
| `Common.TrimStream` | kernel/src/common.cpp:32-41 | a log of 200 bytes or more is replaced by a system file with exactly its last 200 bytes, every other file is as it was; it never stops, and leaves the plan of the run of its four calls |
| `Common.PrintEnds` | kernel/src/common.cpp:22-42 | with the cut the last file has 200 bytes, byte for byte the end of what the log held and the printout; without it the log has all of both; the other files keep their order |
| `Common.PrintsToLog` | kernel/src/common.cpp:22-42 | as a map from names to contents: the entry of the log becomes the end of its bytes and the printout, and no other entry differs |
| `Common.EndOn` | kernel/src/common.cpp:35 | the last 200 bytes of what follows the last 200 bytes are the last 200 of it all |
| `Common.TrimRun` | kernel/src/common.cpp:32-41 | deleting the log, making it anew, marking it and writing it is a legal run, and cuts it down |
| `Common.PrintIsRun` | kernel/src/common.cpp:22-42 | print_to_stream does to the disk and to the plan what the run of all its calls does |
| `Common.PrintFits` | kernel/src/common.cpp:22-42 | a print hits no file while the directory fits, and fits with one record less when the log is cut down |
| `Common.PrintToStream` | kernel/src/common.cpp:22-42 | the log holds the last 200 bytes of what it held and the printout, byte for byte, or all of them while that is less, and no other file comes, goes or changes, but for files that were hit, which the plan of that run names; exactly so while the directories it saves fit |
| `Streams.LogIsEnd` | kernel/src/common.cpp:22-42 | after any number of prints the log is the end of what it held and of everything printed, and no other file has changed |
| `Streams.AllRun` | kernel/src/common.cpp:22-42 | all the prints are one legal run of file system calls |
| `Streams.PrintPlanLike` | kernel/src/common.cpp:22-42 | where everything lies after a print does not depend on what is printed, only on its length |
| `Streams.PrintLines` | kernel/src/common.cpp:22-42 | the same on the arrays, print after print: the log is the end of everything, but for files that were hit; which ones is told from the start |
| `HeapSpec.TiledApart` | kernel/src/mem/heap.cpp:6-18 | blocks of a tiled heap never overlap |
| `HeapSpec.TiledBytes` | kernel/src/mem/heap.cpp:20-30 | free and allocated bytes make up the heap |
| `HeapSpec.AllocTiles` | kernel/src/mem/heap.cpp:32-70 | merging, splitting and handing out keep the tiling |
| `HeapSpec.AllocKeepsOthers` | kernel/src/mem/heap.cpp:32-70 | the allocated blocks are the old ones and one more, which is at most a header larger than asked for |
| `HeapSpec.NullExactly` | kernel/src/mem/heap.cpp:38-69 | NULL if and only if no free block fits after the merges of the scan; then none fitted before either |
| `HeapSpec.FirstFit` | kernel/src/mem/heap.cpp:38-65 | the block handed out is the first that fits in the scan, and only blocks behind it are left unmerged |
| `HeapSpec.NullOnBlocks` | kernel/src/mem/heap.cpp:38-69 | on the blocks as they lie: NULL if and only if no free block with an even number of free ones directly before it suffices together with the free one behind it |
| `HeapSpec.PairServes` | kernel/src/mem/heap.cpp:42-50 | two free blocks in a row that suffice together are found, if none is free before them |
| `HeapSpec.FirstOnBlocks` | kernel/src/mem/heap.cpp:38-65 | the first such block is used: cut to the size needed if more than a header is left over, handed out whole otherwise, at its own address; nothing behind it is touched, and the new header lies over the old one exactly if less than a header is cut off |
| `HeapSpec.PairUpPair` | kernel/src/mem/heap.cpp:42-46 | a scan makes one block of two free ones that come first or behind an allocated one, and goes on behind them |
| `HeapSpec.PairUpSingle` | kernel/src/mem/heap.cpp:42-46 | it leaves every allocated block as it is, and a free one that has no free block beside it |
| `HeapSpec.PayloadsStay` | kernel/src/mem/heap.cpp:52-62 | a cut leaves no block without a byte of payload |
| `HeapSpec.WrapExactly` | kernel/src/mem/heap.cpp:35-48 | a block that is handed out holds the payload if and only if the size does not wrap |
| `HeapSpec.NeverOverlaid` | kernel/src/mem/heap.cpp:51-62 | headers are laid over each other only for a request that wrapped |
| `HeapSpec.PairUpHalves` | kernel/src/mem/heap.cpp:40-46 | a scan that fails leaves every second of the free blocks in a row, and all their bytes |
| `HeapSpec.RetrySucceeds` | kernel/src/mem/heap.cpp:32-70 | in a heap without allocations a request for no more than its bytes succeeds after as many failures as the block count has bits |
| `HeapSpec.ContiguousButRefused` | kernel/src/mem/heap.cpp:40-69 | three free blocks of 100 bytes refuse a request for 250 once, and meet it the second time |
| `HeapSpec.ReleaseTiles` | kernel/src/mem/heap.cpp:72-81 | freeing keeps the tiling |
| `HeapSpec.ReleaseKeepsOthers` | kernel/src/mem/heap.cpp:72-81 | freeing takes exactly the block at that address off the allocated ones |
| `HeapSpec.AllocThenRelease` | kernel/src/mem/heap.cpp:32-81 | freeing what was just allocated gives back as many bytes as it took |
| `HeapSpec.GrantedIsNew` | kernel/src/mem/heap.cpp:32-70 | no address is handed out that is held |
| `HeapSpec.StepKeepsHeld` | kernel/src/mem/heap.cpp:32-81 | what is held stays held until it is freed |
| `HeapSpec.MallocSound` | kernel/src/mem/heap.cpp:32-70 | after malloc the held addresses are still exactly the payloads of the allocated blocks |
| `HeapSpec.FreeSound` | kernel/src/mem/heap.cpp:72-81 | so they are after free |
| `HeapSpec.RunSound` | kernel/src/mem/heap.cpp:32-81 | so they are after any sequence of both |
| `HeapSpec.HeldApart` | kernel/src/mem/heap.cpp:32-81 | payloads are inside the heap and apart, with room for a header between |
| `HeapSpec.AllReturned` | kernel/src/mem/heap.cpp:72-81 | when nothing is held all bytes are free |
| `Heap.Heap.Init` | kernel/src/mem/heap.cpp:6-18 | one free block covers the heap |
| `Heap.Heap.Merge` | kernel/src/mem/heap.cpp:42-46 | a block takes in its free neighbour, and no byte of an allocated block changes |
| `Heap.Heap.Grant` | kernel/src/mem/heap.cpp:51-63 | a block is cut if a header and a byte are left over, and marked |
| `Heap.Heap.Examine` | kernel/src/mem/heap.cpp:40-68 | one round of the scan merges the block with a free neighbour, and hands it out if it then suffices |
| `Heap.Heap.Malloc` | kernel/src/mem/heap.cpp:32-70 | over the bytes of the headers the answer is that of HeapSpec.Alloc; it is NULL if and only if no block or pair of blocks that the scan looks at suffices; no byte of an allocated block changes |
| `Heap.Heap.Free` | kernel/src/mem/heap.cpp:72-81 | exactly the block of that payload is marked, an address outside of the heap is ignored |
| `Heap.Heap.FreeSize` | kernel/src/mem/heap.cpp:20-30 | the sum over the free blocks |
| `Heap.Heap.Do` | kernel/src/mem/heap.cpp:32-81 | one call leaves every held payload byte for byte as it was |
| `Heap.Heap.DoAll` | kernel/src/mem/heap.cpp:32-81 | over any run, every payload that is not freed keeps its bytes |
| `PagingSpec.PoolSuffices` | kernel/src/mem/paging.cpp:143-173 | at most 1021 tables are ever taken, so the next one always lies in the 4 MB of page table 1 |
| `PagingSpec.TableAdded` | kernel/src/mem/paging.cpp:143-173 | a new table has a frame of its own, maps nothing, and changes no mapping |
| `PagingSpec.EntrySet` | kernel/src/mem/paging.cpp:175-205 | writing one entry changes the mapping of one page |
| `PagingSpec.WalksInjective` | kernel/src/mem/paging.cpp:106-141 | two pages of the kernel are never mapped to one frame, and a mapped frame is occupied |
| `PagingSpec.UnmapUndoes` | kernel/src/mem/paging.cpp:207-266 | unmap_page undoes allocate_page: the bitmap, the owners and all mappings are as before; in between exactly one frame less is free |
| `PagingSpec.InitialOwned` | kernel/src/mem/paging.cpp:35-81 | the cleared directory and the locked frames are a state to start from |
| `PagingSpec.LockedAreNotFree` | kernel/src/mem/paging.cpp:54-59 | of the first 8 MB no frame counts as free |
| `PagingSpec.NoneUnmappedCounts` | kernel/src/mem/paging.cpp:207-240 | allocate_page finds no page if and only if the count of free pages is 0 |
| `PagingSpec.TakenCounts` | kernel/src/mem/paging.cpp:207-240 | allocate_page leaves one frame and one page fewer |
| `Paging.Pager.Init` | kernel/src/mem/paging.cpp:35-81 | paging_init succeeds if and only if 10240 frames are free above 8 MB, and then exactly the kernel heap and the file system are mapped |
| `Paging.Pager.MapTables` | kernel/src/mem/paging.cpp:83-104 | all pages of the given tables get frames, and no other mapping changes |
| `Paging.Pager.NumberOfFreeFrames` | kernel/src/mem/paging.cpp:24-33 | the number of clear bits |
| `Paging.Pager.AllocateFrame` | kernel/src/mem/paging.cpp:106-128 | the least free frame becomes occupied; a panic if and only if there is none |
| `Paging.Pager.FrameSetState` | kernel/src/mem/paging.cpp:130-141 | one bit changes |
| `Paging.Pager.AllocatePageTable` | kernel/src/mem/paging.cpp:143-173 | a table that is there is kept; a new one lies in the next frame of the pool, which was no table before |
| `Paging.Pager.AllocatePage` | kernel/src/mem/paging.cpp:175-205 | the page gets the least free frame and no other page changes; for a page that is mapped the least free frame is taken and belongs to nobody |
| `Paging.Pager.FindUnmapped` | kernel/src/mem/paging.cpp:207-240 | the least page of tables 2 to 767 that is not mapped, if there is one |
| `Paging.Pager.AllocateUserPage` | kernel/src/mem/paging.cpp:207-240 | the least unmapped page of tables 2 to 767 gets the least free frame, and all earlier mappings stay |
| `Paging.Pager.UnmapPage` | kernel/src/mem/paging.cpp:242-266 | through the split of the address, that page is unmapped and its frame is free |
| `PageRuns.OwnedPoolOk` | kernel/src/mem/paging.cpp:106-141 | the kernel's tables and the bitmap are at any time a state that runs start from: no frame is mapped twice, and mapped frames are occupied |
| `PageRuns.RunKeeps` | kernel/src/mem/paging.cpp:207-266 | over any sequence of allocate_page and unmap_page no frame is mapped twice, mapped pages and free frames add up to the same, a page that is not given back keeps its frame, and what is taken otherwise stays taken |
| `PageRuns.NothingLeaks` | kernel/src/mem/paging.cpp:207-266 | a sequence that ends with the pages mapped as before leaves the bitmap as it was |
| `PageRuns.PanicExactly` | kernel/src/mem/paging.cpp:207-240 | a call panics if and only if a page is asked for when no frame is free or no page is left |
| `PageRuns.DoAll` | kernel/src/mem/paging.cpp:207-266 | any sequence over the page tables is the run of the specification, in which each page is the least and each frame the least |
| `ProcessSpec.UserFramesDistinct` | kernel/src/processes/process.cpp:78-118 | no frame is in two user entries, in one process or in two, nor in one and in the kernel; and it is marked as occupied |
| `ProcessSpec.ProcessesIsolated` | kernel/src/processes/process.cpp:78-118 | below the kernel, two processes never reach the same frame |
| `ProcessSpec.KernelSeen` | kernel/src/processes/process.cpp:162-190 | every address space maps what the kernel maps by its preset tables or from table 769 on, to the same frames |
| `ProcessSpec.SpaceKept` | kernel/src/processes/process.cpp:140-289 | an address space depends on its own pages only |
| `ProcessSpec.TableEntered` | kernel/src/processes/process.cpp:203-242 | a new table in the directory leaves the address space whole |
| `ProcessSpec.TranslateKept` | kernel/src/processes/process.cpp:203-289 | as long as its pages are kept, a process maps what it mapped |
| `ProcessSpec.DataGiven` | kernel/src/processes/elf_loader.cpp:84-100 | the kernel's new page gives its frame to one entry of the process, and nobody else's frame changes hands |
| `ProcessSpec.FramesFreed` | kernel/src/processes/process.cpp:295-318 | freeing frames of one process takes none from the kernel or from another process |
| `ProcessSpec.LeavesWorld` | kernel/src/processes/process.cpp:295-318 | without that process the others are as they were |
| `Processes.AllocatePageDir` | kernel/src/processes/process.cpp:140-201 | a directory with none of its own tables, in a page nobody uses, through which every page that the kernel maps by its preset tables or from table 769 on is mapped to the same frame; the kernel maps what it mapped; a panic if and only if no frame or no page is free |
| `Processes.Fill` | kernel/src/processes/process.cpp:220-231 | every entry of a table gets a frame of its own; a panic if and only if fewer than 1024 are free |
| `Processes.AddFullTable` | kernel/src/processes/process.cpp:203-242 | one more table, all of whose pages are mapped, and no other table is touched; a panic if and only if fewer than 1025 frames or no page is free |
| `Processes.AllocateStackPage` | kernel/src/processes/process.cpp:203-242 | all pages of table 767 are mapped, or there are too few frames or no page |
| `Processes.AllocateHeapPages` | kernel/src/processes/process.cpp:244-289 | all pages of tables 764 to 766 are mapped, or there are too few frames or pages |
| `Processes.AddDataPage` | kernel/src/processes/elf_loader.cpp:84-100 | an entry of the process gets the frame of a new page, which the kernel still maps; a panic if and only if no frame or no page is free |
| `Processes.UnmapData` | kernel/src/processes/elf_loader.cpp:117-123 | the kernel forgets the page, and the process keeps the frame |
| `Processes.SpannedExactly` | kernel/src/processes/elf_loader.cpp:28-105 | on a page boundary a segment spans exactly the pages its bytes need if and only if its size is no multiple of 4096 |
| `Processes.NextNeed` | kernel/src/processes/elf_loader.cpp:142-179 | what one more segment takes, in the end and at the worst moment |
| `Processes.SegmentTable` | kernel/src/processes/elf_loader.cpp:53-82 | the last table for an index that was seen, otherwise a new one, which takes one frame and one page |
| `Processes.MapSegment` | kernel/src/processes/elf_loader.cpp:53-101 | as many pages are handed over as the segment spans, each with a frame of its own; a panic if and only if frames or pages do not suffice for these and the new tables |
| `Processes.AllocateSegment` | kernel/src/processes/elf_loader.cpp:28-140 | the pages of the segment are mapped in order, and the kernel keeps a mapping if and only if more pages were spanned than needed; panic and what is taken exactly |
| `Processes.LoadSegments` | kernel/src/processes/elf_loader.cpp:142-179 | all segments in ascending order are mapped, and the kernel keeps no mapping if and only if every segment is tidy; a panic if and only if the frames or, at some segment, the pages do not suffice |
| `Processes.CreateSpace` | kernel/src/processes/process.cpp:78-118 | the new address space is apart from all others and these are as they were; heap, stack and segments are mapped; a panic if and only if the program needs more frames or pages than are free |
| `Processes.UnmapProcess` | kernel/src/processes/process.cpp:295-318 | exactly the frames that the process mapped and that of its directory become free, as many as they are, and the other processes are as they were |
| `Processes.FreeFramesOf` | kernel/src/processes/process.cpp:304-315 | exactly the frames in the process's tables become free |
| `Processes.Pids.constructor` | kernel/src/processes/process.cpp:134-138 | no pid is taken |
| `Processes.Pids.AllocatePid` | kernel/src/processes/process.cpp:124-132 | the least free pid, or UINT_MAX if and only if all are taken |
| `Processes.Pids.FreePid` | kernel/src/processes/process.cpp:120-122 | that pid is free again, and no other |
| `Processes.Do` | kernel/src/processes/process.cpp:78-318 | one creation, fork or kill keeps all address spaces apart and the live ones as they were, and what the kernel maps from table 769 on; a creation panics if and only if its program needs more than is free, and takes exactly that; a kill never panics and frees a frame at least and one page |
| `Processes.DoNext` | kernel/src/processes/process.cpp:78-318 | with enough for all creations to come there is enough after the next call, too |
| `Processes.DoAll` | kernel/src/processes/process.cpp:78-318 | over any run of them no frame is in two live processes, and every live process maps what the kernel maps from table 769 on, which stays the same; with enough free from the start for every creation, however many kills there are, the run never panics |
| `Processes.Booted` | kernel/src/mem/paging.cpp:35-81 | the state after paging_init is one to run from |
| `Processes.FileSystemSeen` | kernel/src/processes/process.cpp:182-190 | the pages of the kernel heap and of the file system are mapped in a process to the frames that the kernel has for them |
| `Processes.StartAndRun` | kernel/src/mem/paging.cpp:35-81 | from paging_init on, after any run of creations, forks and kills, every live process maps all pages of the kernel heap and of the file system to the frames that paging_init gave them |
| `Lists.RemoveFirstAt` | kernel/src/processes/list.cpp:122-137 | removing an element takes out its first occurrence |
| `Lists.List.constructor` | kernel/src/processes/list.cpp:6-15 | an empty list |
| `Lists.List.AddFirst` | kernel/src/processes/list.cpp:44-61 | the element comes before all others |
| `Lists.List.AddLast` | kernel/src/processes/list.cpp:63-80 | the element comes behind all others, also when `last` is stale because the list was emptied |
| `Lists.List.Remove` | kernel/src/processes/list.cpp:94-120 | the element at the index is taken out; an index past the end changes nothing |
| `Lists.List.RemoveData` | kernel/src/processes/list.cpp:122-137 | the first element that is equal is taken out, if there is one |
| `Lists.List.Contains` | kernel/src/processes/list.cpp:139-147 | true if and only if some element compares equal |
| `Lists.List.Get` | kernel/src/processes/list.cpp:149-157 | the element at the index, or NULL |
| `Lists.RemoveFiltered` | kernel/src/processes/scheduler.cpp:150-169 | taking out one by one what a filter found leaves what it did not find, even with repetitions |
| `Lists.StablePartition` | kernel/src/processes/scheduler.cpp:150-169 | each entry of the queue has one place in the new one: two of them change places if and only if only the later one is of the chosen shell |
| `Lists.FirstChosen` | kernel/src/processes/scheduler.cpp:163-167 | the first entry of the chosen shell is the first of all |
| `Lists.Reschedule` | kernel/src/processes/scheduler.cpp:150-169 | over the linked lists, every entry of the chosen shell comes before every other one, no entry comes or goes, and both kinds keep their order |
| `SchedSpec.ExactlyOnePlace` | kernel/src/processes/scheduler.cpp:39-47 | between steps every live process but the idle one runs, or is in exactly one queue |
| `SchedProps.SetReadyCore` | kernel/src/processes/scheduler.cpp:73-79 | a process that becomes ready is in the queue once |
| `SchedProps.WakeParentCore` | kernel/src/processes/scheduler.cpp:86-103 | the parent that waits becomes ready with the exit code, or nothing happens |
| `SchedProps.WakeKeyboardCore` | kernel/src/processes/scheduler.cpp:119-139 | the first reader becomes ready if it belongs to the focused terminal, or nothing happens |
| `SchedProps.BlockCore` | kernel/src/processes/scheduler.cpp:81-84 | a running process that waits is in one queue only |
| `SchedProps.KillCore` | kernel/src/processes/scheduler.cpp:267-292 | a dead process is in no queue, no terminal remembers it and its pid is free |
| `SchedProps.SpawnCore` | kernel/src/processes/scheduler.cpp:259-265 | a new process has a pid that no live one has |
| `SchedProps.RefocusInv` | kernel/src/processes/scheduler.cpp:171-210 | changing the terminal reorders the queues of waiting processes and keeps everything else |
| `SchedProps.DispatchInv` | kernel/src/processes/scheduler.cpp:49-65 | the next process runs, and the system goes down if and only if only the idle process is left |
| `SchedRuns.StepInv` | kernel/src/interrupts/handlers.cpp:96-126 | every interrupt and system call keeps the invariant or ends with the system down |
| `SchedRuns.RunInv` | kernel/src/interrupts/handlers.cpp:96-126 | so does every run |
| `SchedRuns.NothingDangles` | kernel/src/processes/scheduler.cpp:13-29 | in every reachable state the running process, those the terminals remember and all in queues are alive |
| `SchedRuns.DownExactly` | kernel/src/processes/scheduler.cpp:49-65 | a step brings the system down if and only if it switches and leaves only the idle process |
| `SchedRuns.Advance` | kernel/src/processes/scheduler.cpp:49-79 | a step never moves a ready process back, and a switch moves it forward by at least one |
| `SchedRuns.BoundedWaiting` | kernel/src/processes/scheduler.cpp:49-79 | a process at position k of the ready queue runs within k + 1 switches of any run, unless it is killed or the system goes down |
| `SchedRuns.ExitWakesParent` | kernel/src/processes/syscalls.cpp:15-20 | a parent that waits gets the exit code and runs, or is ready |
| `SchedRuns.BootInv` | kernel/src/processes/scheduler.cpp:212-244 | the system starts in a state in which the invariant holds, with the four shells ready |
| `SchedResults.BootCurrent` | kernel/src/processes/scheduler.cpp:212-244 | shell n has pid n, is ready, and is remembered by terminal n |
| `SchedResults.DispatchTurn` | kernel/src/processes/scheduler.cpp:49-71 | the first process in the queue that is not the idle one runs and its terminal remembers it, those behind it stay, and no other queue changes |
| `SchedResults.ForkBoth` | kernel/src/processes/syscalls.cpp:208-254 | the caller has result 1 and the child 0; the child has the least pid that was free, the caller as its parent, and its shell; the caller comes behind all that were ready and the child right behind it |
| `SchedResults.ExecBoth` | kernel/src/processes/syscalls.cpp:60-73 | the caller has the pid of the child, and the child comes right behind it, as for fork |
| `SchedResults.ExecFails` | kernel/src/processes/syscalls.cpp:66-67 | without such a program the caller has 0, and no process comes or goes |
| `SchedResults.PlainResumes` | kernel/src/processes/syscalls.cpp:50-58 | the caller has the result and comes behind all that were ready; nothing else changes |
| `SchedResults.WaitExactly` | kernel/src/processes/syscalls.cpp:194-202 | the caller waits if and only if a process with that pid is alive, and has result 1 otherwise |
| `SchedResults.ReadLineWaits` | kernel/src/processes/scheduler.cpp:141-144 | the caller waits as the first of all readers, and its turn goes to the next process |
| `SchedResults.EnterExactly` | kernel/src/processes/scheduler.cpp:119-139 | the first reader becomes ready if and only if its shell has the focus; otherwise nothing changes |
| `SchedResults.FocusOrders` | kernel/src/processes/scheduler.cpp:171-187 | the focus moves if and only if a process has the shell's pid; the waiting processes of that shell come before all others, and the order is kept otherwise |
| `SchedResults.FocusThenEnter` | kernel/src/processes/scheduler.cpp:119-187 | after switching to a terminal its first reader is the first of all, and Enter makes it ready |
| `SchedResults.TickExactly` | kernel/src/interrupts/handlers.cpp:112-126 | every tenth tick the running process joins the queue and the first of it runs; other ticks only count |
| `SchedResults.DeathExactly` | kernel/src/processes/syscalls.cpp:15-20 | exit, fault and unknown call: the process is gone, and its terminal remembers the idle process; its parent, if it waits, has the exit code (1 for a fault) and is the last in the queue; nobody else changes |
| `SchedResults.InterruptExactly` | kernel/src/drivers/keyboard/keyboard.cpp:23-45 | Ctrl-C does the same to the process that the focused terminal remembers, and the running one, if it is another, joins the queue; for a shell or the idle process nothing happens |
| `SchedResults.DiesExactly` | kernel/src/drivers/keyboard/keyboard.cpp:23-45 | a process dies in a step if and only if it runs and exits, faults or makes no known call, or Ctrl-C aims at it and its pid is above 4 |
| `SchedResults.ShellsSurvive` | kernel/src/drivers/keyboard/keyboard.cpp:25-32 | over any run a process with the pid of a shell dies only by itself: no number of Ctrl-C and no other interrupt kills one |
| `SchedResults.InterruptHitsRunning` | kernel/src/processes/scheduler.cpp:49-71 | in every reachable state Ctrl-C kills the running process if its terminal has the focus and it is no shell |
| `Scheduler.Scheduler.constructor` | kernel/src/processes/scheduler.cpp:212-216 | four empty lists and no process |
| `Scheduler.Scheduler.SetProcessAsReady` | kernel/src/processes/scheduler.cpp:73-79 | refines SetReady over the linked list |
| `Scheduler.Scheduler.SwitchToNextProcess` | kernel/src/processes/scheduler.cpp:49-71 | refines Dispatch: the idle process is dropped from the front of the queue |
| `Scheduler.Scheduler.TakeNext` | kernel/src/processes/scheduler.cpp:56-60 | the first process that is not the idle one leaves the queue, with all before it |
| `Scheduler.Scheduler.WakeUpParent` | kernel/src/processes/scheduler.cpp:86-103 | refines WakeParent |
| `Scheduler.Scheduler.WakeProcessWaitingForKeyboard` | kernel/src/processes/scheduler.cpp:119-139 | refines WakeKeyboard |
| `Scheduler.Scheduler.KillProcess` | kernel/src/processes/scheduler.cpp:267-292 | refines Kill on all four lists |
| `Scheduler.Scheduler.CreateProcess` | kernel/src/processes/scheduler.cpp:259-265 | refines Spawn, with the least pid that is free |
| `Scheduler.Scheduler.SwitchToTerminal` | kernel/src/processes/scheduler.cpp:171-210 | both queues are regrouped as in StablePartition and the focus moves, unless no process has the pid of the terminal's shell |
| `Scheduler.Scheduler.InitProcessScheduler` | kernel/src/processes/scheduler.cpp:212-244 | the lists hold the state from which the runs start |
| `Scheduler.Scheduler.Die` | kernel/src/processes/syscalls.cpp:15-20 | the parent is woken before the process is gone |
| `Scheduler.Scheduler.Exec` | kernel/src/processes/syscalls.cpp:60-73 | both are ready, the child behind the caller, which has its pid; or only the caller, with result 0, if there is no such program |
| `Scheduler.Scheduler.WaitFor` | kernel/src/processes/syscalls.cpp:194-202 | the caller waits if the named process exists, and has result 1 otherwise |
| `Scheduler.Scheduler.Fork` | kernel/src/processes/syscalls.cpp:208-254 | caller and child are ready, in that order, with results 1 and 0, and no other process or queue changes |
| `Scheduler.Scheduler.SysCallback` | kernel/src/processes/syscalls.cpp:301-389 | every system call does what DoCall says, an unknown one kills its caller |
| `Scheduler.Scheduler.SystemCall` | kernel/src/interrupts/handlers.cpp:96-101 | the call and the switch are one step that keeps the invariant |
| `Scheduler.Scheduler.KillRunningProcess` | kernel/src/interrupts/handlers.cpp:14-19 | so are a fault, the death and the switch |
| `Scheduler.Scheduler.TimerTick` | kernel/src/interrupts/handlers.cpp:112-126 | every tenth tick the running process goes to the end of the queue |
| `Scheduler.Scheduler.EnterKey` | kernel/src/drivers/keyboard/keyboard.cpp:101-123 | a finished line wakes the reader of the focused terminal |
| `Scheduler.Scheduler.AbortCurrentCmd` | kernel/src/drivers/keyboard/keyboard.cpp:23-45 | the latest process of the focused terminal dies, unless its pid is that of a shell or of the idle process |
| `Scheduler.Scheduler.HandleAll` | kernel/src/interrupts/handlers.cpp:96-126 | any run over the linked lists is the run of the transition system, and the invariant holds at its end |
| `Numerals.TableIs` | stdlib/src/string.cpp:167 | the digit table of itoa holds the digit of every remainder below 36 right of its middle |
| `Numerals.PutDigit` | stdlib/src/string.cpp:165-167 | one signed and unsigned division writes the last digit of the 32-bit pattern and leaves its quotient |
| `Numerals.WriteDigits` | stdlib/src/string.cpp:164-174 | the digits are written backwards, and no minus sign is ever due |
| `Numerals.ReverseInPlace` | stdlib/src/string.cpp:174-179 | the characters are reversed, and nothing behind them changes |
| `Numerals.Itoa` | stdlib/src/string.cpp:154-181 | for every int32 and base 2 to 36 the string is the numeral of the number modulo 2^32; for another base it is empty |
| `Numerals.NumeralMeans` | stdlib/src/string.cpp:154-181 | the numeral has no leading zero, and its value is the number |
| `Numerals.NumeralUnique` | stdlib/src/string.cpp:154-181 | there is no other numeral like that for the number |
| `Numerals.Atoi` | stdlib/src/string.cpp:80-102 | the value of the leading digits, negated behind a minus sign, modulo 2^32 |
| `Numerals.ParsedIs` | stdlib/src/string.cpp:80-102 | an optional minus sign and the digits behind it count, and what follows the first other character does not |
| `Numerals.RoundTrip` | stdlib/src/string.cpp:80-185 | reading what itoa_dec wrote gives the number modulo 2^32, which is the number if and only if it is not negative |
| `Numerals.WriteAndRead` | stdlib/src/string.cpp:80-185 | the same through a buffer in memory |

## Left out

- Common.PrintToStream: says nothing when a line break follows a buffer that fills the last cluster (PrintsExactly), or when the disk is full; the bytes of files that were hit are left open.
- Streams.PrintLines: asks that every print has room when its turn comes, as PrintToStream does.
- Vfs.FileSystem.Cp: takes the size of the source as read before the directory is freed; the kernel reads it from memory it has freed by then.
- Vfs.FileSystem.Rm: for a missing file the kernel reads the system flag through a NULL reference; what it reads there is a parameter, and the outcome does not depend on it.
- Vfs.FileSystem.Write: below the end of a file whose clusters do not match its size the kernel leaves its temporary buffer or its chain, and the model requires a match (`InsertLegal`); nor does it model a size that wraps at 2^32.
- Vfs.FileSystem.Read: requires a file that exists and whose clusters cover its size, because otherwise the kernel follows a NULL reference or reads other files' clusters; offset + len must not wrap.
- Vfs.FileSystem.Cat: requires clusters that cover the size, for the same reason.
- Vfs.FileSystem.OpenFile: requires a file that exists, as does SetAsSystemFile; the kernel follows a NULL reference otherwise.
- Vfs.FileSystem.Refines: leaves open the bytes of files in `hit`, although Saved says which bytes a save writes; a name stays in `hit` when its file is deleted or written anew.
- Vfs.FileSystem.AppendData: after a write over the directory's records (`DirectoryHit`) nothing is stated, as the next load_root_folder reads what is then no directory.
- FsRuns.CleanExactly: starts from a disk on which every file has room in its last cluster, and asks that it stays so; for other disks the exact conditions for single calls are in FsProps.
- FsBoot.FsInit: the texts of the three default files are parameters, of the lengths they have in the source.
- Heap.Heap.Malloc: when a request that wrapped lays one header over another nothing is stated but that it did (`corrupted`).
- Heap.Heap.Free: requires an address outside of the heap or one that is behind the header of a block; for another one the kernel sets a byte that may belong to any payload, or lies before the heap.
- Heap.Heap.DoAll: sizes do not wrap, and addresses that are freed are held or outside of the heap; an address in the middle of the heap that was never handed out is not modelled.
- Paging.Pager.Init: starts from a bitmap of the memory's size that is given, because the mask that paging_init computes for the last word does not lock exactly the spare bits.
- Paging.Pager.AllocatePage: the flags of an entry (present, writable, user) are not modelled, only the address field; a word of the bitmap is 32 booleans.
- Processes.LoadSegments: says that the segments are mapped only if they ascend, as the ELF specification demands of loadable segments; for an index that was seen and is not the last one allocate_segment writes to the wrong table. Separation between processes is stated for any order.
- Processes.CreateSpace: says nothing of the stack's mapping if a segment reaches into its table, and nothing of pages of segments in the heap's tables; what is copied into the pages is not modelled, nor is the process count, which the kernel never increments.
- Processes.UnmapProcess: the frames of the page tables themselves stay occupied, as they do in the kernel, so that frames are not conserved over a process's life.
- Processes.AddFullTable: the heap's tables are entered in the directory before they are filled in the kernel, and behind that in the model; no step in between is observable.
- Processes.DoAll: stops at the first illegal call, and states nothing about the memory after a panic, where the kernel stops too; when one creation panics is exact in Do.
- PageRuns.DoAll: a page that is given back has to be mapped and not stale, as in UnmapPage.
- Scheduler.Scheduler.Fork: the copy of the parent's stack, heap and registers is not modelled, only results, queues and, in Processes, the new address space.
- Scheduler.Scheduler.CreateProcess: control blocks are values in a map by their address, which is a parameter; fewer than 256 processes are alive.
- Scheduler.Scheduler.SysCallback: the idle process makes no system call and causes no fault; calls that touch neither queues nor processes are one event that carries their result.
- Scheduler.Scheduler.SwitchToTerminal: the screen is not modelled, only the queues and the focus.
- Scheduler.Scheduler.WakeProcessWaitingForKeyboard: the line that is handed to the reader, and its echo to the log, are not modelled.
- Scheduler.Scheduler.KillProcess: the process's open files and its memory are not modelled in this part; its memory is in Processes.UnmapProcess.
- Numerals.Atoi: a NULL string, for which atoi returns 0, is not modelled.
- Numerals.Itoa: requires a buffer with room for the numeral and its NUL.
- Bytes of a name's field behind its NUL are modelled as zeros; the kernel leaves there what was in memory. No operation reads them.
- kmalloc and kfree are taken to succeed inside the file system and the process code, and their own state is modelled in Heap only.
- Waiting for one particular child, exclusive use of open files, and the open files of a process that is killed.
- `ls`, `print_FAT`, and all other output; the keyboard's scan codes; the mouse; the shell and the user programs.
- ELF headers; loading CR3, saving and restoring registers, interrupts controllers and timers, and everything in assembly.
