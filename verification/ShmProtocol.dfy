/**
 Writer and reader of the shared block interleaved word by word (src/cp_shm.cpp), each word
 access being one atomic step in one global order. `pubs` is the history of publications begun,
 `done` how many of them are complete; the versions in memory are `Ver(done)`.
 */
module ShmProtocol {
  import opened Base
  import opened Upstreams
  import opened CpShm

  /** Versions run through 1 .. 2^32 - 1 and then start over; 0 is the empty block. */
  const PERIOD := 0xffff_ffff

  function Ver(n: nat): u32 {
    if n == 0 then 0 else 1 + (n - 1) % PERIOD
  }

  lemma VerStep(n: nat)
    ensures Ver(n + 1) == Bump(Ver(n)) && Ver(n + 1) != Ver(n)
  {
  }

  /** Equal versions mean a whole number of cycles in between. */
  lemma VerEqual(a: nat, b: nat)
    requires 1 <= a <= b
    ensures Ver(a) == Ver(b) <==> (b - a) % PERIOD == 0
  {
    var x, y := a - 1, b - 1;
    assert y - x == (y / PERIOD - x / PERIOD) * PERIOD + (y % PERIOD - x % PERIOD);
  }

  datatype Writer = Idle | Writing(next: u32, written: nat)

  /**
   `start` is the publication current when the version was first loaded; `marks[j]` is how many
   words the next publication had overwritten when word `j` was read.
   */
  datatype Reader = Waiting | Reading(ver: u32, start: nat, got: seq<u32>, marks: seq<nat>)

  datatype Shm = Shm(
    version: u32, data: seq<u32>, writer: Writer, reader: Reader,
    lastApplied: u32, lastIndex: nat, table: Option<Publication>,
    pubs: seq<Publication>, done: nat)

  datatype Step = Begin(p: Publication) | WriteWord | Commit | Start | ReadWord | Check

  const EMPTY := Publication(Mod, [])

  /** The words of publication number `n`; number 0 is the zeroed block. */
  function Image(s: Shm, n: nat): (r: seq<u32>)
    ensures |r| == DATA_WORDS
  {
    Encode(if 0 < n <= |s.pubs| then s.pubs[n - 1] else EMPTY)
  }

  /** The `j`-th data word the reader looks at: policy, count, then ip and port of each slot. */
  function Pos(j: nat): nat {
    if j == 0 then POLICY_WORD else if j == 1 then COUNT_WORD else 3 + 3 * ((j - 2) / 2) + (j - 2) % 2
  }

  function WordsNeeded(got: seq<u32>): nat {
    if |got| < 2 then 2 else 2 + 2 * CountOf(got[1])
  }

  /** What the reader applies once it has all words. */
  function Assemble(got: seq<u32>): Publication
    requires 2 <= |got| == WordsNeeded(got)
  {
    Publication(if got[0] == 1 then Rr else Mod,
                seq(CountOf(got[1]), i requires 0 <= i < CountOf(got[1]) =>
                  Endpoint(got[2 + 2 * i], got[3 + 2 * i] % 0x1_0000)))
  }

  predicate Enabled(s: Shm, step: Step) {
    match step
    case Begin(_) => s.writer.Idle?
    case WriteWord => s.writer.Writing? && s.writer.written < DATA_WORDS && |s.data| == DATA_WORDS && s.done < |s.pubs|
    case Commit => s.writer.Writing? && s.writer.written == DATA_WORDS
    case Start => s.reader.Waiting?
    case ReadWord =>
      s.reader.Reading? && |s.reader.got| < WordsNeeded(s.reader.got) && Pos(|s.reader.got|) < |s.data|
    case Check => s.reader.Reading? && 2 <= |s.reader.got| == WordsNeeded(s.reader.got)
  }

  function Apply(s: Shm, step: Step): Shm
    requires Enabled(s, step)
  {
    match step
    case Begin(p) => s.(pubs := s.pubs + [p], writer := Writing(Bump(s.version), 0))
    case WriteWord =>
      var k := s.writer.written;
      s.(data := s.data[k := Encode(s.pubs[s.done])[k]], writer := s.writer.(written := k + 1))
    case Commit => s.(version := s.writer.next, done := s.done + 1, writer := Idle)
    case Start =>
      if s.version == 0 || s.version == s.lastApplied then s
      else s.(reader := Reading(s.version, s.done, [], []))
    case ReadWord =>
      s.(reader := s.reader.(got := s.reader.got + [s.data[Pos(|s.reader.got|)]],
                             marks := s.reader.marks + [Overwritten(s)]))
    case Check =>
      if s.version != s.reader.ver then s.(reader := Waiting)
      else s.(reader := Waiting, table := Some(Assemble(s.reader.got)),
              lastApplied := s.reader.ver, lastIndex := s.reader.start)
  }

  // -------------------------------------------------------------- invariant

  ghost predicate WriterInv(s: Shm) {
    && s.version == Ver(s.done) && |s.data| == DATA_WORDS
    && match s.writer
       case Idle => |s.pubs| == s.done && s.data == Image(s, s.done)
       case Writing(next, k) =>
         && |s.pubs| == s.done + 1 && next == Ver(s.done + 1) && k <= DATA_WORDS
         && forall i :: 0 <= i < DATA_WORDS ==> s.data[i] == (if i < k then Image(s, s.done + 1) else Image(s, s.done))[i]
  }

  function Overwritten(s: Shm): nat {
    match s.writer case Idle => 0 case Writing(_, k) => k
  }

  /**
   Word `j` read when `mark` words were overwritten: it is the next publication's if it was among
   those, and otherwise the current one's.
   */
  ghost predicate ReadOk(s: Shm, j: nat, w: u32, mark: nat) {
    && Pos(j) < DATA_WORDS && mark <= Overwritten(s)
    && w == Image(s, if Pos(j) < mark then s.done + 1 else s.done)[Pos(j)]
  }

  ghost predicate ReaderInv(s: Shm) {
    s.reader.Reading? ==>
      && 1 <= s.reader.start <= s.done && s.reader.ver == Ver(s.reader.start)
      && |s.reader.got| <= WordsNeeded(s.reader.got) && |s.reader.marks| == |s.reader.got|
      && (s.reader.start == s.done ==>
            forall j :: 0 <= j < |s.reader.got| ==> ReadOk(s, j, s.reader.got[j], s.reader.marks[j]))
  }

  /** Once the newest publication has been applied with no other under way, the table is that one. */
  ghost predicate TableInv(s: Shm) {
    s.writer.Idle? && 1 <= s.done <= |s.pubs| && s.lastIndex == s.done ==>
      s.table == Some(Effective(s.pubs[s.done - 1]))
  }

  ghost predicate Inv(s: Shm) {
    WriterInv(s) && ReaderInv(s) && s.lastIndex <= s.done && s.lastApplied == Ver(s.lastIndex)
  }

  const FRESH := Shm(0, Encode(EMPTY), Idle, Waiting, 0, 0, None, [], 0)

  lemma FreshInv()
    ensures Inv(FRESH)
  {
  }

  lemma PosBound(got: seq<u32>)
    requires |got| < WordsNeeded(got)
    ensures Pos(|got|) < DATA_WORDS
  {
  }

  lemma SameImage(s: Shm, r: Shm, n: nat)
    requires s.pubs <= r.pubs && n <= |s.pubs|
    ensures Image(r, n) == Image(s, n)
  {
  }

  lemma BeginKeeps(s: Shm, p: Publication)
    requires WriterInv(s) && Enabled(s, Begin(p))
    ensures WriterInv(Apply(s, Begin(p)))
  {
    hide Encode;
    VerStep(s.done);
    SameImage(s, Apply(s, Begin(p)), s.done);
    hide Ver, Image;
  }

  lemma WriteKeeps(s: Shm)
    requires WriterInv(s) && Enabled(s, WriteWord)
    ensures WriterInv(Apply(s, WriteWord))
  {
    hide Encode;
    assert Image(s, s.done + 1) == Encode(s.pubs[s.done]);
    SameImages(s, Apply(s, WriteWord));
    hide Image, Ver;
  }

  lemma CommitKeeps(s: Shm)
    requires WriterInv(s) && Enabled(s, Commit)
    ensures WriterInv(Apply(s, Commit))
  {
    hide Encode;
    SameImages(s, Apply(s, Commit));
    hide Image, Ver;
    assert s.data == Image(s, s.done + 1);
  }

  lemma WriterStep(s: Shm, step: Step)
    requires WriterInv(s) && Enabled(s, step)
    ensures WriterInv(Apply(s, step))
  {
    match step {
      case Begin(p) => BeginKeeps(s, p);
      case WriteWord => WriteKeeps(s);
      case Commit => CommitKeeps(s);
      case _ =>
        SameImages(s, Apply(s, step));
        hide Image, Ver, Encode;
    }
  }

  lemma ReaderStep(s: Shm, step: Step)
    requires Inv(s) && Enabled(s, step)
    ensures ReaderInv(Apply(s, step))
  {
    hide Encode, Image;
    var r := Apply(s, step);
    if r.reader.Reading? && r.reader.start == r.done {
      forall j | 0 <= j < |r.reader.got|
        ensures ReadOk(r, j, r.reader.got[j], r.reader.marks[j])
      {
        if s.reader.Reading? && j < |s.reader.got| {
          OldWordOk(s, step, j);
        } else {
          NewWordOk(s);
        }
      }
    }
  }

  lemma NewWordOk(s: Shm)
    requires Inv(s) && Enabled(s, ReadWord)
    ensures var j, r := |s.reader.got|, Apply(s, ReadWord);
            ReadOk(r, j, r.reader.got[j], r.reader.marks[j])
  {
    hide Encode, Image;
    PosBound(s.reader.got);
    assert |s.data| == DATA_WORDS;
    var i := Pos(|s.reader.got|);
    assert s.data[i] == Image(s, if i < Overwritten(s) then s.done + 1 else s.done)[i];
    hide Pos, WordsNeeded, Ver;
    SameImages(s, Apply(s, ReadWord));
  }

  lemma SameImages(s: Shm, r: Shm)
    requires r.pubs == s.pubs
    ensures forall n: nat :: Image(r, n) == Image(s, n)
  {
  }

  lemma OldWordOk(s: Shm, step: Step, j: nat)
    requires Inv(s) && Enabled(s, step) && s.reader.Reading? && j < |s.reader.got|
    requires Apply(s, step).reader.Reading? && s.reader.start == Apply(s, step).done
    ensures ReadOk(Apply(s, step), j, s.reader.got[j], s.reader.marks[j])
  {
    hide Encode;
    assert ReadOk(s, j, s.reader.got[j], s.reader.marks[j]);
    SameImage(s, Apply(s, step), s.done);
  }

  lemma StepKeeps(s: Shm, step: Step)
    requires Inv(s) && Enabled(s, step)
    ensures Inv(Apply(s, step))
  {
    WriterStep(s, step);
    ReaderStep(s, step);
  }

  ghost predicate IsRun(s: Shm, steps: seq<Step>)
    decreases |steps|
  {
    steps == [] || (Enabled(s, steps[0]) && IsRun(Apply(s, steps[0]), steps[1..]))
  }

  ghost function Run(s: Shm, steps: seq<Step>): Shm
    requires IsRun(s, steps)
    decreases |steps|
  {
    if steps == [] then s else Run(Apply(s, steps[0]), steps[1..])
  }

  lemma {:induction false} RunKeeps(s: Shm, steps: seq<Step>)
    requires Inv(s) && IsRun(s, steps)
    ensures Inv(Run(s, steps))
    decreases |steps|
  {
    if steps != [] {
      hide Inv;
      StepKeeps(s, steps[0]);
      RunKeeps(Apply(s, steps[0]), steps[1..]);
    }
  }

  // --------------------------------------------------------- what a poll applies

  /** All words read are from the image of `p`. */
  ghost predicate FromImage(p: Publication, got: seq<u32>) {
    forall j :: 0 <= j < |got| ==> Pos(j) < DATA_WORDS && got[j] == WordAt(p, Pos(j))
  }

  lemma HeaderRead(p: Publication, got: seq<u32>)
    requires 2 <= |got| && FromImage(p, got)
    ensures (got[0] == 1 <==> p.policy == Rr) && CountOf(got[1]) == Count(p)
  {
    assert got[0] == WordAt(p, Pos(0)) && got[1] == WordAt(p, Pos(1));
  }

  lemma SlotRead(p: Publication, got: seq<u32>, i: nat)
    requires FromImage(p, got) && i < Count(p) && 3 + 2 * i < |got|
    ensures got[2 + 2 * i] == p.endpoints[i].ip && got[3 + 2 * i] == p.endpoints[i].port
  {
    assert Pos(2 + 2 * i) == 3 + 3 * i && Pos(3 + 2 * i) == 4 + 3 * i;
  }

  /** Words that are all from one image assemble to its publication. */
  lemma AssembleImage(p: Publication, got: seq<u32>)
    requires 2 <= |got| == WordsNeeded(got) && FromImage(p, got)
    ensures Assemble(got) == Effective(p)
  {
    hide *;
    HeaderAssembles(p, got);
    var a, e := Assemble(got), Effective(p);
    forall i | 0 <= i < |a.endpoints|
      ensures a.endpoints[i] == e.endpoints[i]
    {
      SlotAssembles(p, got, i);
    }
    assert a.endpoints == e.endpoints;
    SamePublication(a, e);
  }

  lemma SamePublication(a: Publication, e: Publication)
    requires a.policy == e.policy && a.endpoints == e.endpoints
    ensures a == e
  {
  }

  lemma HeaderAssembles(p: Publication, got: seq<u32>)
    requires 2 <= |got| == WordsNeeded(got) && FromImage(p, got)
    ensures Assemble(got).policy == Effective(p).policy
    ensures |Assemble(got).endpoints| == |Effective(p).endpoints| == Count(p)
  {
    hide Assemble, Effective, FromImage, WordAt, Pos, Count, CountOf;
    HeaderRead(p, got);
    AssembledHeader(got);
    EffectiveIs(p);
  }

  lemma SlotAssembles(p: Publication, got: seq<u32>, i: nat)
    requires 2 <= |got| == WordsNeeded(got) && FromImage(p, got) && i < Count(p)
    ensures i < |Assemble(got).endpoints| && i < |Effective(p).endpoints|
    ensures Assemble(got).endpoints[i] == Effective(p).endpoints[i]
  {
    hide *;
    HeaderRead(p, got);
    AssembledSlot(got, i);
    SlotRead(p, got, i);
    EffectiveSlot(p, i);
    SameEndpoint(got[2 + 2 * i], got[3 + 2 * i], p.endpoints[i]);
  }

  lemma SameEndpoint(ip: u32, port: u32, e: Endpoint)
    requires ip == e.ip && port == e.port
    ensures Endpoint(ip, port % 0x1_0000) == e
  {
  }

  lemma EffectiveIs(p: Publication)
    ensures Effective(p).policy == p.policy && |Effective(p).endpoints| == Count(p)
  {
    CountFits(p);
    hide Count;
  }

  lemma EffectiveSlot(p: Publication, i: nat)
    requires i < Count(p)
    ensures i < |p.endpoints| && i < |Effective(p).endpoints| && Effective(p).endpoints[i] == p.endpoints[i]
  {
    CountFits(p);
    hide Count;
  }

  lemma AssembledHeader(got: seq<u32>)
    requires 2 <= |got| == WordsNeeded(got)
    ensures Assemble(got).policy == (if got[0] == 1 then Rr else Mod)
    ensures |Assemble(got).endpoints| == CountOf(got[1]) && |got| == 2 + 2 * CountOf(got[1])
  {
    hide CountOf;
  }

  lemma AssembledSlot(got: seq<u32>, i: nat)
    requires 2 <= |got| == WordsNeeded(got) && i < CountOf(got[1])
    ensures i < |Assemble(got).endpoints| && 3 + 2 * i < |got|
    ensures Assemble(got).endpoints[i] == Endpoint(got[2 + 2 * i], got[3 + 2 * i] % 0x1_0000)
  {
    hide CountOf;
  }

  /** The words as they come from the block: flag, count and ports fit their fields. */
  ghost predicate InField(j: nat, w: u32) {
    && (j == 0 ==> w <= 1) && (j == 1 ==> w <= MAX_EP) && (3 <= j && j % 2 == 1 ==> w < 0x1_0000)
  }

  lemma WordInField(p: Publication, j: nat)
    requires Pos(j) < DATA_WORDS
    ensures InField(j, WordAt(p, Pos(j)))
  {
    if 3 <= j && j % 2 == 1 {
      var i := (j - 3) / 2;
      assert j == 3 + 2 * i;
      assert Pos(j) == 4 + 3 * i;
    }
  }

  lemma SlotDecides(p: Publication, got: seq<u32>, i: nat)
    requires i < Count(p) && 3 + 2 * i < |got| && InField(3 + 2 * i, got[3 + 2 * i])
    requires Endpoint(got[2 + 2 * i], got[3 + 2 * i] % 0x1_0000) == p.endpoints[i]
    ensures Pos(2 + 2 * i) < DATA_WORDS && got[2 + 2 * i] == WordAt(p, Pos(2 + 2 * i))
    ensures Pos(3 + 2 * i) < DATA_WORDS && got[3 + 2 * i] == WordAt(p, Pos(3 + 2 * i))
  {
    assert Pos(2 + 2 * i) == 3 + 3 * i && Pos(3 + 2 * i) == 4 + 3 * i;
  }

  lemma HeaderDecides(p: Publication, got: seq<u32>)
    requires 2 <= |got| == WordsNeeded(got) && InField(0, got[0]) && InField(1, got[1])
    requires Assemble(got) == Effective(p)
    ensures got[0] == WordAt(p, Pos(0)) && got[1] == WordAt(p, Pos(1)) && |got| == 2 + 2 * Count(p)
  {
    AssembledHeader(got);
    CountFits(p);
    assert |Effective(p).endpoints| == Count(p);
    hide Assemble;
  }

  lemma SlotAssembled(p: Publication, got: seq<u32>, i: nat)
    requires 2 <= |got| == WordsNeeded(got) && Assemble(got) == Effective(p)
    requires i < Count(p) && 3 + 2 * i < |got|
    ensures Endpoint(got[2 + 2 * i], got[3 + 2 * i] % 0x1_0000) == p.endpoints[i]
  {
    AssembledHeader(got);
    CountFits(p);
    hide Count;
    assert |Assemble(got).endpoints| == |Effective(p).endpoints| == Count(p);
    hide CountOf;
    AssembledSlot(got, i);
    hide Assemble;
    assert Effective(p).endpoints[i] == p.endpoints[i];
  }

  lemma AssembleDecides(p: Publication, got: seq<u32>, j: nat)
    requires 2 <= |got| == WordsNeeded(got) && Assemble(got) == Effective(p) && j < |got|
    requires forall k :: 0 <= k < |got| ==> InField(k, got[k])
    ensures Pos(j) < DATA_WORDS && got[j] == WordAt(p, Pos(j))
  {
    assert InField(0, got[0]) && InField(1, got[1]);
    assert Pos(0) < DATA_WORDS && Pos(1) < DATA_WORDS;
    hide *;
    HeaderDecides(p, got);
    if 2 <= j {
      var i := (j - 2) / 2;
      assert j == 2 + 2 * i || j == 3 + 2 * i;
      assert InField(3 + 2 * i, got[3 + 2 * i]);
      SlotAssembled(p, got, i);
      SlotDecides(p, got, i);
    }
  }

  /** What is assembled is a given publication exactly if every word read is that publication's. */
  lemma AssembleIff(p: Publication, got: seq<u32>)
    requires 2 <= |got| == WordsNeeded(got)
    requires forall j :: 0 <= j < |got| ==> InField(j, got[j])
    ensures Assemble(got) == Effective(p) <==> FromImage(p, got)
  {
    hide Assemble, Effective, WordAt, WordsNeeded, InField;
    if FromImage(p, got) {
      AssembleImage(p, got);
    }
    if Assemble(got) == Effective(p) {
      forall j | 0 <= j < |got|
        ensures Pos(j) < DATA_WORDS && got[j] == WordAt(p, Pos(j))
      {
        AssembleDecides(p, got, j);
      }
    }
  }

  /** Word `j` was read after the next publication had changed it. */
  ghost predicate ReadNewer(s: Shm, j: nat)
    requires s.reader.Reading? && j < |s.reader.marks| && Pos(j) < DATA_WORDS
  {
    Pos(j) < s.reader.marks[j] && Image(s, s.done + 1)[Pos(j)] != Image(s, s.done)[Pos(j)]
  }

  ghost predicate NoneNewer(s: Shm)
    requires s.reader.Reading?
  {
    forall j :: 0 <= j < |s.reader.marks| && Pos(j) < DATA_WORDS ==> !ReadNewer(s, j)
  }

  lemma ReadWordOk(s: Shm, j: nat)
    requires Inv(s) && s.reader.Reading? && s.reader.start == s.done && j < |s.reader.got|
    ensures 1 <= s.done <= |s.pubs| && Pos(j) < DATA_WORDS && InField(j, s.reader.got[j])
    ensures s.reader.got[j] == WordAt(s.pubs[s.done - 1], Pos(j)) <==> !ReadNewer(s, j)
    ensures s.reader.marks[j] <= Overwritten(s)
  {
    assert ReadOk(s, j, s.reader.got[j], s.reader.marks[j]);
    WordInField(s.pubs[s.done - 1], j);
    if s.done < |s.pubs| {
      WordInField(s.pubs[s.done], j);
    }
  }

  /**
   A poll that succeeds, in any interleaving with fewer than 2^32 - 1 publications since it
   loaded the version: the publication it started on is still the last complete one, and what it
   applies is that publication if and only if no word was read after the next publication had
   changed it.
   */
  lemma PollApplies(s: Shm)
    requires Inv(s) && Enabled(s, Check) && s.version == s.reader.ver
    requires s.done - s.reader.start < PERIOD
    ensures s.reader.start == s.done && 1 <= s.done <= |s.pubs|
    ensures Apply(s, Check).lastIndex == s.done && Apply(s, Check).lastApplied == Ver(s.done)
    ensures Apply(s, Check).table == Some(Effective(s.pubs[s.done - 1])) <==> NoneNewer(s)
    ensures Overwritten(s) == 0 ==> NoneNewer(s)
  {
    VerEqual(s.reader.start, s.done);
    var p, got := s.pubs[s.done - 1], s.reader.got;
    forall j | 0 <= j < |got|
      ensures Pos(j) < DATA_WORDS && InField(j, got[j]) && s.reader.marks[j] <= Overwritten(s)
      ensures got[j] == WordAt(p, Pos(j)) <==> !ReadNewer(s, j)
    {
      ReadWordOk(s, j);
    }
    assert |s.reader.marks| == |got|;
    AssembleIff(p, got);
    hide Inv, Assemble, Effective, WordAt, InField, Image, Pos, Ver;
    assert FromImage(p, got) <==> NoneNewer(s);
  }

  lemma VersionIs(s: Shm)
    requires Inv(s)
    ensures s.version == Ver(s.done)
  {
  }

  /** The same of every interleaving from a fresh block. */
  lemma ReachablePoll(steps: seq<Step>)
    requires IsRun(FRESH, steps)
    requires var s := Run(FRESH, steps);
             Enabled(s, Check) && s.version == s.reader.ver && s.done - s.reader.start < PERIOD
    ensures var s := Run(FRESH, steps);
            var r := Apply(s, Check);
            && 1 <= s.done <= |s.pubs| && r.lastApplied == s.version == Ver(s.done)
            && (r.table == Some(Effective(s.pubs[s.done - 1])) <==> NoneNewer(s))
  {
    hide Run, IsRun, Effective, Assemble, Image, ReadOk, NoneNewer, WordsNeeded;
    FreshInv();
    RunKeeps(FRESH, steps);
    VersionIs(Run(FRESH, steps));
    hide Inv, Ver;
    PollApplies(Run(FRESH, steps));
  }

  /** The reader on its own, from the version load to the re-check. */
  function PollAlone(s: Shm): Shm
    requires |s.data| == DATA_WORDS
    decreases s.reader.Waiting?, if s.reader.Reading? then 2 + 2 * MAX_EP - |s.reader.got| else 0
  {
    if s.reader.Waiting? then
      var r := Apply(s, Start);
      if r.reader.Waiting? then r else PollAlone(r)
    else if Enabled(s, ReadWord) then PollAlone(Apply(s, ReadWord))
    else if Enabled(s, Check) then Apply(s, Check)
    else s
  }

  lemma {:induction false} FinishAlone(s: Shm)
    requires Inv(s) && s.writer.Idle? && s.reader.Reading? && s.reader.start == s.done
    ensures var r := PollAlone(s);
            && Inv(r) && r.reader.Waiting? && r.lastIndex == s.done && r.writer.Idle?
            && r.done == s.done && r.pubs == s.pubs && r.data == s.data
            && 1 <= s.done <= |s.pubs| && r.table == Some(Effective(s.pubs[s.done - 1]))
    decreases 2 + 2 * MAX_EP - |s.reader.got|
  {
    hide Encode;
    if |s.reader.got| < WordsNeeded(s.reader.got) {
      PosBound(s.reader.got);
      StepKeeps(s, ReadWord);
      FinishAlone(Apply(s, ReadWord));
    } else {
      StepKeeps(s, Check);
      PollApplies(s);
    }
  }

  /**
   An undisturbed poll after a publication that has not been applied yet (and fewer than 2^32 - 1
   publications since the last one applied) applies the newest publication exactly. In
   particular it repairs a torn read: that one was recorded under the older version.
   */
  lemma UndisturbedPoll(s: Shm)
    requires Inv(s) && s.writer.Idle? && s.reader.Waiting?
    requires s.lastIndex < s.done && s.done - s.lastIndex < PERIOD
    ensures var r := PollAlone(s);
            && Inv(r) && r.lastIndex == s.done && r.lastApplied == Ver(s.done)
            && 1 <= s.done <= |s.pubs| && r.table == Some(Effective(s.pubs[s.done - 1]))
  {
    hide Encode;
    VersionIsNew(s.lastIndex, s.done);
    StepKeeps(s, Start);
    hide Inv, Ver;
    FinishAlone(Apply(s, Start));
  }

  lemma VersionIsNew(a: nat, b: nat)
    requires a < b && b - a < PERIOD
    ensures Ver(b) != 0 && Ver(b) != Ver(a)
  {
    if a > 0 {
      VerEqual(a, b);
    }
  }

  lemma StepKeepsTable(s: Shm, step: Step)
    requires Inv(s) && TableInv(s) && Enabled(s, step)
    ensures TableInv(Apply(s, step))
  {
    hide Encode, Assemble, Effective, Ver;
    var r := Apply(s, step);
    if step.Check? && s.version == s.reader.ver && s.writer.Idle? && r.lastIndex == r.done {
      PollApplies(s);
    }
  }

  lemma {:induction false} RunKeepsTable(s: Shm, steps: seq<Step>)
    requires Inv(s) && TableInv(s) && IsRun(s, steps)
    ensures TableInv(Run(s, steps))
    decreases |steps|
  {
    if steps != [] {
      hide Inv, TableInv;
      StepKeeps(s, steps[0]);
      StepKeepsTable(s, steps[0]);
      RunKeepsTable(Apply(s, steps[0]), steps[1..]);
    }
  }

  /**
   Convergence. Whatever went before (torn polls, failed polls, any number of publications), the
   first poll that is not disturbed leaves the table equal to the newest publication, provided fewer
   than 2^32 - 1 publications separate it from the last one applied.
   */
  lemma Converges(steps: seq<Step>)
    requires IsRun(FRESH, steps)
    requires var s := Run(FRESH, steps);
             s.writer.Idle? && s.reader.Waiting? && 1 <= s.done && s.done - s.lastIndex < PERIOD
    ensures var s := Run(FRESH, steps);
            && |s.data| == DATA_WORDS && s.done == |s.pubs|
            && PollAlone(s).table == Some(Effective(s.pubs[s.done - 1]))
  {
    FreshInv();
    RunKeeps(FRESH, steps);
    RunKeepsTable(FRESH, steps);
    hide Run, IsRun, Encode, Effective;
    var s := Run(FRESH, steps);
    if s.lastIndex < s.done {
      hide Inv;
      UndisturbedPoll(s);
    } else {
      assert PollAlone(s) == s;
    }
  }

  // ------------------------------------------------------------ a torn read

  /** The first `k` words of a publication being written over a block. */
  lemma {:induction false} WriteWords(s: Shm, k: nat) returns (steps: seq<Step>)
    requires Inv(s) && s.writer.Writing? && s.writer.written <= k <= DATA_WORDS
    ensures IsRun(s, steps)
    ensures var r := Run(s, steps);
            && Inv(r) && r.writer == s.writer.(written := k) && r.reader == s.reader && r.pubs == s.pubs
            && r.done == s.done && r.lastApplied == s.lastApplied && r.lastIndex == s.lastIndex
    decreases k - s.writer.written
  {
    hide Encode;
    if s.writer.written == k {
      steps := [];
    } else {
      StepKeeps(s, WriteWord);
      var rest := WriteWords(Apply(s, WriteWord), k);
      steps := [WriteWord] + rest;
      assert steps[1..] == rest;
    }
  }

  lemma {:induction false} Concat(s: Shm, a: seq<Step>, b: seq<Step>)
    requires IsRun(s, a) && IsRun(Run(s, a), b)
    ensures IsRun(s, a + b) && Run(s, a + b) == Run(Run(s, a), b)
    decreases |a|
  {
    hide Apply, Enabled;
    if a == [] {
      assert a + b == b;
    } else {
      Concat(Apply(s, a[0]), a[1..], b);
      assert (a + b)[1..] == a[1..] + b;
    }
  }

  /** One whole publication over a quiet block. */
  lemma PublishAll(s: Shm, p: Publication) returns (steps: seq<Step>)
    requires Inv(s) && s.writer.Idle?
    ensures IsRun(s, steps)
    ensures var r := Run(s, steps);
            && Inv(r) && r.writer.Idle? && r.reader == s.reader && r.pubs == s.pubs + [p]
            && r.done == s.done + 1 && r.lastApplied == s.lastApplied && r.lastIndex == s.lastIndex
  {
    hide Encode;
    StepKeeps(s, Begin(p));
    var begun := Apply(s, Begin(p));
    var words := WriteWords(begun, DATA_WORDS);
    var full := Run(begun, words);
    StepKeeps(full, Commit);
    hide Inv;
    assert Run(full, [Commit]) == Apply(full, Commit) by { assert [Commit][1..] == []; }
    Concat(begun, words, [Commit]);
    steps := [Begin(p)] + (words + [Commit]);
    assert steps[1..] == words + [Commit];
  }

  /** The state in which the torn read is made: publication 1 complete, four words of publication 2 written. */
  lemma HalfWritten() returns (steps: seq<Step>)
    ensures IsRun(FRESH, steps)
    ensures var r := Run(FRESH, steps);
            && Inv(r) && r.writer == Writing(2, 4) && r.reader == Reading(1, 1, [], [])
            && r.pubs == [Publication(Mod, [Endpoint(1, 1)]), Publication(Mod, [Endpoint(2, 2)])] && r.done == 1
  {
    hide Encode;
    FreshInv();
    var p1, p2 := Publication(Mod, [Endpoint(1, 1)]), Publication(Mod, [Endpoint(2, 2)]);
    var first := PublishAll(FRESH, p1);
    var a := Run(FRESH, first);
    StepKeeps(a, Start);
    var b := Apply(a, Start);
    StepKeeps(b, Begin(p2));
    var c := Apply(b, Begin(p2));
    var words := WriteWords(c, 4);
    var more := [Start, Begin(p2)] + words;
    assert more[1..] == [Begin(p2)] + words && more[1..][1..] == words;
    Concat(FRESH, first, more);
    steps := first + more;
  }

  lemma ReadOne(s: Shm)
    requires Inv(s) && Enabled(s, ReadWord) && s.writer.Writing?
    ensures var j := |s.reader.got|; var r := Apply(s, ReadWord);
            && Inv(r) && r == s.(reader := s.reader.(got := r.reader.got, marks := s.reader.marks + [s.writer.written]))
            && r.reader.Reading? && Pos(j) < DATA_WORDS
            && r.reader.got == s.reader.got + [Image(s, if Pos(j) < s.writer.written then s.done + 1 else s.done)[Pos(j)]]
  {
    hide Encode;
    StepKeeps(s, ReadWord);
  }

  /**
   Torn reads do happen: this run applies, as version 1, an endpoint that is in neither publication
   (the address of the second with the port of the first).
   */
  lemma TornRead() returns (steps: seq<Step>)
    ensures IsRun(FRESH, steps)
    ensures var r := Run(FRESH, steps);
            && r.table == Some(Publication(Mod, [Endpoint(2, 1)])) && r.lastIndex == 1
            && r.pubs == [Publication(Mod, [Endpoint(1, 1)]), Publication(Mod, [Endpoint(2, 2)])]
  {
    var start := HalfWritten();
    var s0 := Run(FRESH, start);
    var rest := [ReadWord, ReadWord, ReadWord, ReadWord, Check];
    TornTail(s0);
    Concat(FRESH, start, rest);
    steps := start + rest;
  }

  lemma TornTail(s0: Shm)
    requires Inv(s0) && s0.writer == Writing(2, 4) && s0.reader == Reading(1, 1, [], []) && s0.done == 1
    requires s0.pubs == [Publication(Mod, [Endpoint(1, 1)]), Publication(Mod, [Endpoint(2, 2)])]
    ensures var rest := [ReadWord, ReadWord, ReadWord, ReadWord, Check];
            && IsRun(s0, rest)
            && var r := Run(s0, rest);
               r.table == Some(Publication(Mod, [Endpoint(2, 1)])) && r.lastIndex == 1 && r.pubs == s0.pubs
  {
    assert s0.version == 1;
    hide Inv, Apply, Enabled, Run, IsRun;
    ReadNext(s0, [], [0]);
    var s1 := Apply(s0, ReadWord);
    ReadNext(s1, [0], [0, 1]);
    var s2 := Apply(s1, ReadWord);
    ReadNext(s2, [0, 1], [0, 1, 2]);
    var s3 := Apply(s2, ReadWord);
    ReadNext(s3, [0, 1, 2], [0, 1, 2, 1]);
    var s4 := Apply(s3, ReadWord);
    TornCheck(s4);
    FourAndCheck(s0, s1, s2, s3, s4);
  }

  lemma TornCheck(s: Shm)
    requires s.version == 1 && s.reader.Reading? && s.reader.ver == s.reader.start == 1
    requires s.reader.got == [0, 1, 2, 1]
    ensures Enabled(s, Check)
    ensures var r := Apply(s, Check);
            r.table == Some(Publication(Mod, [Endpoint(2, 1)])) && r.lastIndex == 1 && r.pubs == s.pubs
  {
    assert Assemble(s.reader.got).endpoints == [Endpoint(2, 1)];
  }

  /** The reads of the torn example, one by one. */
  lemma ReadNext(s: Shm, got: seq<u32>, next: seq<u32>)
    requires Inv(s) && s.writer == Writing(2, 4) && s.done == 1
    requires s.reader.Reading? && s.reader.ver == s.reader.start == 1 && s.reader.got == got
    requires s.pubs == [Publication(Mod, [Endpoint(1, 1)]), Publication(Mod, [Endpoint(2, 2)])]
    requires || (got == [] && next == [0])
             || (got == [0] && next == [0, 1])
             || (got == [0, 1] && next == [0, 1, 2])
             || (got == [0, 1, 2] && next == [0, 1, 2, 1])
    ensures Enabled(s, ReadWord) && Inv(Apply(s, ReadWord))
    ensures Apply(s, ReadWord) == s.(reader := s.reader.(got := next, marks := s.reader.marks + [4]))
  {
    assert Pos(0) == 0 && Pos(1) == 2 && Pos(2) == 3 && Pos(3) == 4;
    assert |s.data| == DATA_WORDS;
    hide Inv, Encode;
    ReadOne(s);
    hide Apply;
    TornWords();
    assert got + [next[|got|]] == next;
  }

  lemma TornWords()
    ensures var p1, p2 := Publication(Mod, [Endpoint(1, 1)]), Publication(Mod, [Endpoint(2, 2)]);
            Encode(p2)[0] == 0 && Encode(p2)[2] == 1 && Encode(p2)[3] == 2 && Encode(p1)[4] == 1
  {
  }

  lemma FourAndCheck(s0: Shm, s1: Shm, s2: Shm, s3: Shm, s4: Shm)
    requires Enabled(s0, ReadWord) && s1 == Apply(s0, ReadWord) && Enabled(s1, ReadWord) && s2 == Apply(s1, ReadWord)
    requires Enabled(s2, ReadWord) && s3 == Apply(s2, ReadWord) && Enabled(s3, ReadWord) && s4 == Apply(s3, ReadWord)
    requires Enabled(s4, Check)
    ensures var rest := [ReadWord, ReadWord, ReadWord, ReadWord, Check];
            IsRun(s0, rest) && Run(s0, rest) == Apply(s4, Check)
  {
    hide Apply, Enabled;
    var rest := [ReadWord, ReadWord, ReadWord, ReadWord, Check];
    assert rest[1..] == [ReadWord, ReadWord, ReadWord, Check];
    assert rest[1..][1..] == [ReadWord, ReadWord, Check];
    assert rest[1..][1..][1..] == [ReadWord, Check];
    assert rest[1..][1..][1..][1..] == [Check];
    assert IsRun(s4, [Check]) && Run(s4, [Check]) == Apply(s4, Check) by { assert [Check][1..] == []; }
    assert IsRun(s3, [ReadWord, Check]) && Run(s3, [ReadWord, Check]) == Apply(s4, Check);
    assert IsRun(s2, [ReadWord, ReadWord, Check]) && Run(s2, [ReadWord, ReadWord, Check]) == Apply(s4, Check);
  }
}
