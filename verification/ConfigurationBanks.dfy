/** What the durable keys of a configuration mean, and when they are safe to restore from. */
module ConfigurationBanks {
  import opened Bytes
  import opened Options
  import opened Fnv
  import opened ConfigurationTypes
  import opened DurableStorage
  import Sha256

  const MANIFEST_MAGIC: nat := 0x46434D31
  const RECORD_MAGIC: nat := 0x46435231
  const POINTER_MAGIC: nat := 0x46435031
  const MAXIMUM_RECORD_SLOTS: nat := 1000

  /** The octets of a stored structure that precede its checksum field. */
  function ImageBytes(b: Blob): seq<byte> {
    match b
    case PointerBlob(magic, generation, _) =>
      LittleEndian(magic, 4) + LittleEndian(generation, 4)
    case ManifestBlob(magic, generation, schema, maximum, count, sha, finalized, _) =>
      LittleEndian(magic, 4) + LittleEndian(generation, 4) + LittleEndian(schema, 2) + LittleEndian(maximum, 2)
      + LittleEndian(count, 4) + sha + [if finalized then 1 else 0] + Zeros(3)
    case RecordBlob(magic, generation, sequence, kind, body, _) =>
      LittleEndian(magic, 4) + LittleEndian(generation, 4) + LittleEndian(sequence, 4) + [kind, 0]
      + LittleEndian(|body|, 2) + body
      + (if |body| <= MAXIMUM_RECORD_BYTES then Zeros(MAXIMUM_RECORD_BYTES - |body|) else [])
  }

  /** Every number fits its field. */
  predicate InWidth(b: Blob) {
    && b.magic < TWO_32 && b.generation < TWO_32
    && match b
       case PointerBlob(_, _, _) => true
       case ManifestBlob(_, _, schema, maximum, count, sha, _, _) =>
         schema < 65536 && maximum < 65536 && count < TWO_32 && |sha| == 32
       case RecordBlob(_, _, sequence, _, body, _) => sequence < TWO_32 && |body| <= MAXIMUM_RECORD_BYTES
  }

  /** Equal but for the seal. */
  predicate SameContent(b: Blob, c: Blob) {
    match b
    case PointerBlob(magic, generation, _) => c.PointerBlob? && magic == c.magic && generation == c.generation
    case ManifestBlob(magic, generation, schema, maximum, count, sha, finalized, _) =>
      && c.ManifestBlob? && magic == c.magic && generation == c.generation && schema == c.schemaVersion
      && maximum == c.maximumRecordBytes && count == c.recordCount && sha == c.sha256 && finalized == c.finalized
    case RecordBlob(magic, generation, sequence, kind, body, _) =>
      && c.RecordBlob? && magic == c.magic && generation == c.generation && sequence == c.sequence
      && kind == c.kind && body == c.body
  }

  /** The checksum covers every field: structures of one kind with the same octets are the same. */
  lemma ImageDetermines(b: Blob, c: Blob)
    requires InWidth(b) && InWidth(c) && ImageBytes(b) == ImageBytes(c)
    requires b.PointerBlob? == c.PointerBlob? && b.ManifestBlob? == c.ManifestBlob?
    ensures SameContent(b, c)
  {
    match b
    case PointerBlob(magic, generation, _) =>
      assert ImageBytes(b) + [] == ImageBytes(c) + [];
      Start(b, c, [], []);
    case ManifestBlob(_, _, _, _, _, _, _, _) => ManifestDetermines(b, c);
    case RecordBlob(_, _, _, _, _, _) => RecordDetermines(b, c);
  }

  lemma Start(b: Blob, c: Blob, x: seq<byte>, y: seq<byte>)
    requires InWidth(b) && InWidth(c)
    requires LittleEndian(b.magic, 4) + LittleEndian(b.generation, 4) + x
             == LittleEndian(c.magic, 4) + LittleEndian(c.generation, 4) + y
    ensures b.magic == c.magic && b.generation == c.generation && x == y
  {
    hide InWidth;
    FieldsFit(b);
    FieldsFit(c);
    SplitAt(LittleEndian(b.magic, 4) + LittleEndian(b.generation, 4), x,
            LittleEndian(c.magic, 4) + LittleEndian(c.generation, 4), y);
    SplitAt(LittleEndian(b.magic, 4), LittleEndian(b.generation, 4), LittleEndian(c.magic, 4), LittleEndian(c.generation, 4));
    LittleEndianInjective(b.magic, c.magic, 4);
    LittleEndianInjective(b.generation, c.generation, 4);
  }

  lemma FieldsFit(b: Blob)
    requires InWidth(b)
    ensures b.magic < Pow256(4) && b.generation < Pow256(4)
  {
    Powers();
  }

  lemma ManifestDetermines(b: Blob, c: Blob)
    requires b.ManifestBlob? && c.ManifestBlob? && InWidth(b) && InWidth(c) && ImageBytes(b) == ImageBytes(c)
    ensures SameContent(b, c)
  {
    hide LittleEndian, Pow256;
    Powers();
    var x4, y4: seq<byte> := [if b.finalized then 1 else 0] + Zeros(3), [if c.finalized then 1 else 0] + Zeros(3);
    var x3, y3 := b.sha256 + x4, c.sha256 + y4;
    var x2, y2 := LittleEndian(b.recordCount, 4) + x3, LittleEndian(c.recordCount, 4) + y3;
    var x1, y1 := LittleEndian(b.maximumRecordBytes, 2) + x2, LittleEndian(c.maximumRecordBytes, 2) + y2;
    var x, y := LittleEndian(b.schemaVersion, 2) + x1, LittleEndian(c.schemaVersion, 2) + y1;
    assert ImageBytes(b) == LittleEndian(b.magic, 4) + LittleEndian(b.generation, 4) + x;
    assert ImageBytes(c) == LittleEndian(c.magic, 4) + LittleEndian(c.generation, 4) + y;
    Start(b, c, x, y);
    SplitAt(LittleEndian(b.schemaVersion, 2), x1, LittleEndian(c.schemaVersion, 2), y1);
    SplitAt(LittleEndian(b.maximumRecordBytes, 2), x2, LittleEndian(c.maximumRecordBytes, 2), y2);
    SplitAt(LittleEndian(b.recordCount, 4), x3, LittleEndian(c.recordCount, 4), y3);
    SplitAt(b.sha256, x4, c.sha256, y4);
    LittleEndianInjective(b.schemaVersion, c.schemaVersion, 2);
    LittleEndianInjective(b.maximumRecordBytes, c.maximumRecordBytes, 2);
    LittleEndianInjective(b.recordCount, c.recordCount, 4);
    assert x4[0] == y4[0];
  }

  lemma RecordDetermines(b: Blob, c: Blob)
    requires b.RecordBlob? && c.RecordBlob? && InWidth(b) && InWidth(c) && ImageBytes(b) == ImageBytes(c)
    ensures SameContent(b, c)
  {
    hide LittleEndian, Pow256;
    Powers();
    var x3, y3 := b.body + Zeros(MAXIMUM_RECORD_BYTES - |b.body|), c.body + Zeros(MAXIMUM_RECORD_BYTES - |c.body|);
    var x2, y2 := LittleEndian(|b.body|, 2) + x3, LittleEndian(|c.body|, 2) + y3;
    var x1, y1: seq<byte> := [b.kind, 0] + x2, [c.kind, 0] + y2;
    var x, y := LittleEndian(b.sequence, 4) + x1, LittleEndian(c.sequence, 4) + y1;
    assert ImageBytes(b) == LittleEndian(b.magic, 4) + LittleEndian(b.generation, 4) + x;
    assert ImageBytes(c) == LittleEndian(c.magic, 4) + LittleEndian(c.generation, 4) + y;
    Start(b, c, x, y);
    SplitAt(LittleEndian(b.sequence, 4), x1, LittleEndian(c.sequence, 4), y1);
    LittleEndianInjective(b.sequence, c.sequence, 4);
    SplitAt([b.kind, 0], x2, [c.kind, 0], y2);
    assert [b.kind, 0][0] == [c.kind, 0][0];
    SplitAt(LittleEndian(|b.body|, 2), x3, LittleEndian(|c.body|, 2), y3);
    LittleEndianInjective(|b.body|, |c.body|, 2);
    SplitAt(b.body, Zeros(MAXIMUM_RECORD_BYTES - |b.body|), c.body, Zeros(MAXIMUM_RECORD_BYTES - |c.body|));
  }

  /** A pointer as the memory of a little-endian target holds it. */
  lemma PointerExample()
    ensures ImageBytes(PackPointer(0x01020304)) == [0x31, 0x50, 0x43, 0x46, 4, 3, 2, 1]
  {
    hide Fnv1a, LittleEndian;
    FourOctets(0x46435031);
    FourOctets(0x01020304);
  }

  /** The same of a manifest. */
  lemma ManifestExample(sha: seq<byte>, finalized: bool)
    ensures ImageBytes(PackManifest(Manifest(0x01020304, 0x0506, 0x0708, 0x090A0B0C, sha, finalized)))
            == [0x31, 0x4D, 0x43, 0x46, 4, 3, 2, 1, 6, 5, 8, 7, 0x0C, 0x0B, 0x0A, 9] + sha
               + (if finalized then [1, 0, 0, 0] else [0, 0, 0, 0])
  {
    hide Fnv1a, LittleEndian;
    ManifestOctets();
    assert Zeros(3) == [0, 0, 0];
  }

  lemma ManifestOctets()
    ensures LittleEndian(0x46434D31, 4) == [0x31, 0x4D, 0x43, 0x46] && LittleEndian(0x01020304, 4) == [4, 3, 2, 1]
    ensures LittleEndian(0x0506, 2) == [6, 5] && LittleEndian(0x0708, 2) == [8, 7]
    ensures LittleEndian(0x090A0B0C, 4) == [0x0C, 0x0B, 0x0A, 9]
  {
    hide LittleEndian;
    FourOctets(0x46434D31);
    FourOctets(0x01020304);
    FourOctets(0x090A0B0C);
    TwoOctetsLittle(0x0506);
    TwoOctetsLittle(0x0708);
  }

  /** The same of a record two octets short of the longest. */
  lemma RecordExample(body: seq<byte>)
    requires |body| == 446
    ensures ImageBytes(PackRecord(0x01020304, Record(9, 9, 0x05060708, 3, body)))
            == [0x31, 0x52, 0x43, 0x46, 4, 3, 2, 1, 8, 7, 6, 5, 3, 0, 0xBE, 1] + body + [0, 0]
  {
    hide Fnv1a, LittleEndian;
    RecordOctets();
    assert Zeros(2) == [0, 0];
  }

  lemma RecordOctets()
    ensures LittleEndian(0x46435231, 4) == [0x31, 0x52, 0x43, 0x46] && LittleEndian(0x01020304, 4) == [4, 3, 2, 1]
    ensures LittleEndian(0x05060708, 4) == [8, 7, 6, 5] && LittleEndian(446, 2) == [0xBE, 1]
  {
    hide LittleEndian;
    FourOctets(0x46435231);
    FourOctets(0x01020304);
    FourOctets(0x05060708);
    TwoOctetsLittle(446);
  }

  lemma FourOctets(v: nat)
    ensures LittleEndian(v, 4) == [v % 256, v / 256 % 256, v / 256 / 256 % 256, v / 256 / 256 / 256 % 256]
  {
    assert LittleEndian(v, 4) == [v % 256] + LittleEndian(v / 256, 3);
    assert LittleEndian(v / 256, 3) == [v / 256 % 256] + LittleEndian(v / 256 / 256, 2);
    TwoOctetsLittle(v / 256 / 256);
  }

  lemma TwoOctetsLittle(v: nat)
    ensures LittleEndian(v, 2) == [v % 256, v / 256 % 256]
  {
    assert LittleEndian(v, 2) == [v % 256] + LittleEndian(v / 256, 1);
    assert LittleEndian(v / 256, 1) == [v / 256 % 256] + LittleEndian(v / 256 / 256, 0);
  }

  function MagicOf(b: Blob): nat {
    match b
    case PointerBlob(_, _, _) => POINTER_MAGIC
    case ManifestBlob(_, _, _, _, _, _, _, _) => MANIFEST_MAGIC
    case RecordBlob(_, _, _, _, _, _) => RECORD_MAGIC
  }

  predicate Intact(b: Blob) {
    b.magic == MagicOf(b) && b.seal == Fnv1a(ImageBytes(b))
  }

  function Sealed(b: Blob): Blob {
    b.(seal := Fnv1a(ImageBytes(b)))
  }

  function PackPointer(generation: nat): Blob {
    Sealed(PointerBlob(POINTER_MAGIC, generation, 0))
  }

  function PackManifest(m: Manifest): Blob {
    Sealed(ManifestBlob(MANIFEST_MAGIC, m.generation, m.schemaVersion, m.maximumRecordBytes,
                        m.recordCount, m.checksum, m.finalized, 0))
  }

  function PackRecord(generation: nat, r: Record): Blob {
    Sealed(RecordBlob(RECORD_MAGIC, generation, r.sequence, r.kind, r.body, 0))
  }

  function Unpack(b: Blob): Manifest
    requires b.ManifestBlob?
  {
    Manifest(b.generation, b.schemaVersion, b.maximumRecordBytes, b.recordCount, b.sha256, b.finalized)
  }

  predicate Odd(generation: nat) { generation % 2 == 1 }

  /** Where the two banks are kept: odd generations under 1, even ones under 0. */
  lemma KeyExamples()
    ensures Render(ManifestKey(Odd(6))) == "flova_l_0_m" && Render(ManifestKey(Odd(7))) == "flova_l_1_m"
    ensures Render(RecordKey(Odd(6), 42)) == "flova_l_0_r_042" && Render(RecordKey(Odd(7), 907)) == "flova_l_1_r_907"
    ensures Render(PointerA) == "flova_l_a" && Render(PointerB) == "flova_l_b" && Render(Pending) == "flova_l_p"
  {}

  function LoadPointer(d: Image, k: Key): Option<nat> {
    if k in d && d[k].PointerBlob? && Intact(d[k]) then Some(d[k].generation) else None
  }

  function LoadManifest(d: Image, k: Key): Option<Manifest> {
    if k in d && d[k].ManifestBlob? && Intact(d[k]) then Some(Unpack(d[k])) else None
  }

  /** What `readRecord` delivers for one slot of the bank of `generation`. */
  function LoadRecord(d: Image, capacity: nat, generation: nat, sequence: nat): Option<Record> {
    var k := RecordKey(Odd(generation), sequence);
    if sequence < capacity && sequence < MAXIMUM_RECORD_SLOTS && k in d && d[k].RecordBlob? && Intact(d[k])
       && d[k].generation == generation && d[k].sequence == sequence && |d[k].body| <= MAXIMUM_RECORD_BYTES
    then Some(Record(0, generation, sequence, d[k].kind, d[k].body))
    else None
  }

  lemma PackedLoads(d: Image, k: Key, m: Manifest)
    ensures LoadManifest(d[k := PackManifest(m)], k) == Some(m)
  {
    hide Fnv1a;
  }

  lemma PackedPointerLoads(d: Image, k: Key, generation: nat)
    ensures LoadPointer(d[k := PackPointer(generation)], k) == Some(generation)
  {
    hide Fnv1a;
  }

  lemma PackedRecordLoads(d: Image, capacity: nat, generation: nat, r: Record)
    requires r.sequence < capacity && r.sequence < MAXIMUM_RECORD_SLOTS && |r.body| <= MAXIMUM_RECORD_BYTES
    ensures LoadRecord(d[RecordKey(Odd(generation), r.sequence) := PackRecord(generation, r)],
                       capacity, generation, r.sequence)
            == Some(Record(0, generation, r.sequence, r.kind, r.body))
  {
    hide Fnv1a;
  }

  /** The two pointers in descending order, zero standing for none. */
  function Generations(d: Image): (nat, nat) {
    var left, right := LoadPointer(d, PointerA), LoadPointer(d, PointerB);
    var newest := if left.Some? then left.value else 0;
    if right.None? then (newest, 0)
    else if right.value > newest then (right.value, newest)
    else if right.value != newest then (newest, right.value)
    else (newest, 0)
  }

  function Active(d: Image): nat { Generations(d).0 }

  /** The first `n` records of a bank, as read back. */
  function Bank(d: Image, capacity: nat, generation: nat, n: nat): (rs: seq<Record>)
    ensures |rs| == n
  {
    seq(n, i requires 0 <= i =>
      var r := LoadRecord(d, capacity, generation, i);
      if r.Some? then r.value else Record(0, 0, 0, 0, []))
  }

  predicate Readable(d: Image, capacity: nat, generation: nat, n: nat) {
    forall i :: 0 <= i < n ==> LoadRecord(d, capacity, generation, i).Some?
  }

  /** Every record `m` announces is readable, and together they hash to its checksum. */
  predicate Complete(d: Image, capacity: nat, m: Manifest) {
    && Readable(d, capacity, m.generation, m.recordCount)
    && Sha256.Hash(Stream(Bank(d, capacity, m.generation, m.recordCount))) == m.checksum
  }

  /** The same transfer, whatever the finalized flags say. */
  predicate SameTransfer(m: Manifest, n: Manifest) {
    m.(finalized := false) == n.(finalized := false)
  }

  /**
   What a start accepts of a listed generation: a finalized manifest in its bank, and
   all records of the generation readable and hashing to the checksum of the manifest.
   */
  predicate Restorable(d: Image, capacity: nat, generation: nat) {
    var m := LoadManifest(d, ManifestKey(Odd(generation)));
    m.Some? && m.value.finalized && Complete(d, capacity, m.value.(generation := generation))
  }

  /** The newest pointer names a bank that the next start accepts. */
  predicate Acceptable(d: Image, capacity: nat) {
    Active(d) != 0 ==> Restorable(d, capacity, Active(d))
  }

  /** The bank of `generation` has its manifest and all records it announces, finalized or not. */
  predicate Whole(d: Image, capacity: nat, generation: nat) {
    var m := LoadManifest(d, ManifestKey(Odd(generation)));
    m.Some? && m.value.generation == generation && Complete(d, capacity, m.value)
  }

  /** The newest pointer names a bank whose records are readable and hash to its manifest. */
  predicate Safe(d: Image, capacity: nat) {
    Active(d) != 0 ==> Whole(d, capacity, Active(d))
  }

  /** The bank of `generation` has a manifest, and a finalized one. */
  predicate BankFinalized(d: Image, generation: nat) {
    var b := LoadManifest(d, ManifestKey(Odd(generation)));
    b.Some? && b.value.finalized
  }

  /** A whole bank is accepted by the next start exactly when its manifest is finalized. */
  lemma WholeRestorableIff(d: Image, capacity: nat, generation: nat)
    requires Whole(d, capacity, generation)
    ensures Restorable(d, capacity, generation) <==> BankFinalized(d, generation)
  {
    hide Complete;
    var m := LoadManifest(d, ManifestKey(Odd(generation))).value;
    assert m.(generation := generation) == m;
  }

  /** The bank manifest, if there is one, belongs to the transfer `m`. */
  predicate BankManifestFits(d: Image, m: Manifest) {
    var b := LoadManifest(d, ManifestKey(Odd(m.generation)));
    b.Some? ==> SameTransfer(b.value, m)
  }

  /** A pending manifest marked finalized stands for a bank with all its records. */
  predicate PendingSound(d: Image, capacity: nat) {
    var p := LoadManifest(d, Pending);
    p.Some? && p.value.finalized ==> Complete(d, capacity, p.value) && BankManifestFits(d, p.value)
  }

  /** What holds of the durable keys at every instant of every run. */
  predicate Consistent(d: Image, capacity: nat) {
    Safe(d, capacity) && PendingSound(d, capacity)
  }

  /** `generation` may be received: it does not share the bank of the active one. */
  predicate Inactive(d: Image, generation: nat) {
    Active(d) == 0 || Odd(generation) != Odd(Active(d))
  }

  predicate Agree(d: Image, e: Image, k: Key) {
    (k in d <==> k in e) && (k in d ==> d[k] == e[k])
  }

  /** Only the records of its own bank decide whether a transfer is complete. */
  lemma BankFrame(d: Image, e: Image, capacity: nat, generation: nat, n: nat)
    requires forall i :: 0 <= i < n ==> Agree(d, e, RecordKey(Odd(generation), i))
    ensures Readable(d, capacity, generation, n) == Readable(e, capacity, generation, n)
    ensures Bank(d, capacity, generation, n) == Bank(e, capacity, generation, n)
  {
    hide Intact;
    forall i | 0 <= i < n
      ensures LoadRecord(d, capacity, generation, i) == LoadRecord(e, capacity, generation, i)
    {
      assert Agree(d, e, RecordKey(Odd(generation), i));
    }
  }

  lemma CompleteFrame(d: Image, e: Image, capacity: nat, m: Manifest)
    requires forall i :: 0 <= i < m.recordCount ==> Agree(d, e, RecordKey(Odd(m.generation), i))
    ensures Complete(d, capacity, m) == Complete(e, capacity, m)
  {
    BankFrame(d, e, capacity, m.generation, m.recordCount);
  }

  /** Nothing in the bank that is active in `d` differs in `e`. */
  ghost predicate Untouched(d: Image, e: Image) {
    Active(d) != 0 ==>
      && Agree(d, e, ManifestKey(Odd(Active(d))))
      && forall i: nat :: Agree(d, e, RecordKey(Odd(Active(d)), i))
  }

  lemma ActiveFrame(d: Image, e: Image)
    requires Agree(d, e, PointerA) && Agree(d, e, PointerB)
    ensures Active(d) == Active(e)
  {}

  /** An image that keeps the pointers and the active bank keeps the active bank restorable. */
  lemma SafeFrame(d: Image, e: Image, capacity: nat)
    requires Safe(d, capacity)
    requires Agree(d, e, PointerA) && Agree(d, e, PointerB)
    requires Untouched(d, e)
    ensures Safe(e, capacity) && Active(e) == Active(d)
  {
    hide Intact, Complete;
    ActiveFrame(d, e);
    if Active(d) != 0 {
      CompleteFrame(d, e, capacity, LoadManifest(d, ManifestKey(Odd(Active(d)))).value);
    }
  }

  /** Whether the next start accepts it depends on the pointers and the active bank only. */
  lemma AcceptableFrame(d: Image, e: Image, capacity: nat)
    requires Active(e) == Active(d) && Untouched(d, e)
    ensures Acceptable(e, capacity) <==> Acceptable(d, capacity)
  {
    hide Intact, Complete, Generations;
    if Active(d) != 0 && LoadManifest(d, ManifestKey(Odd(Active(d)))).Some? {
      CompleteFrame(d, e, capacity, LoadManifest(d, ManifestKey(Odd(Active(d)))).value.(generation := Active(d)));
    }
  }

  /** `beginInactive` of a generation that does not share the active bank. */
  lemma BeginKeepsConsistent(d: Image, capacity: nat, m: Manifest)
    requires Consistent(d, capacity) && Inactive(d, m.generation) && !m.finalized
    ensures var d1 := d[Pending := PackManifest(m)];
            var d2 := d1[ManifestKey(Odd(m.generation)) := PackManifest(m)];
            && Consistent(d1, capacity) && Active(d1) == Active(d) && Untouched(d, d1)
            && Consistent(d2, capacity) && Active(d2) == Active(d) && Untouched(d, d2)
  {
    hide PackManifest, Whole, Complete, Intact;
    var d1 := d[Pending := PackManifest(m)];
    var d2 := d1[ManifestKey(Odd(m.generation)) := PackManifest(m)];
    PackedLoads(d, Pending, m);
    SafeFrame(d, d1, capacity);
    SafeFrame(d, d2, capacity);
    assert LoadManifest(d2, Pending) == LoadManifest(d1, Pending);
  }

  /**
   Beginning a new generation over an active one is safe exactly when the two
   use different banks, and then the next start accepts the active one as before: a
   generation of the same parity erases the active manifest.
   */
  lemma BeginSafeIff(d: Image, capacity: nat, m: Manifest)
    requires Consistent(d, capacity) && !m.finalized && Active(d) != 0 && m.generation != Active(d)
    ensures var e := d[Pending := PackManifest(m)][ManifestKey(Odd(m.generation)) := PackManifest(m)];
            && (Safe(e, capacity) <==> Odd(m.generation) != Odd(Active(d)))
            && (Acceptable(e, capacity) <==> Odd(m.generation) != Odd(Active(d)) && Acceptable(d, capacity))
  {
    hide PackManifest, Complete, Intact;
    if Odd(m.generation) != Odd(Active(d)) {
      BeginKeepsConsistent(d, capacity, m);
      AcceptableFrame(d, d[Pending := PackManifest(m)][ManifestKey(Odd(m.generation)) := PackManifest(m)], capacity);
    } else {
      var d1 := d[Pending := PackManifest(m)];
      var e := d1[ManifestKey(Odd(m.generation)) := PackManifest(m)];
      ActiveFrame(d, e);
      PackedLoads(d1, ManifestKey(Odd(m.generation)), m);
    }
  }

  /** A transfer of no records at all. */
  function EmptyTransfer(generation: nat, finalized: bool): Manifest {
    Manifest(generation, 1, MAXIMUM_RECORD_BYTES, 0, Sha256.Hash([]), finalized)
  }

  /** An image on which such a transfer is the active generation. */
  function Installed(generation: nat): Image {
    map[][ManifestKey(Odd(generation)) := PackManifest(EmptyTransfer(generation, true))][PointerA := PackPointer(generation)]
  }

  lemma EmptyTransferComplete(d: Image, capacity: nat, generation: nat, finalized: bool)
    ensures Complete(d, capacity, EmptyTransfer(generation, finalized))
  {
    hide Sha256.Hash, LoadRecord;
    assert Bank(d, capacity, generation, 0) == [];
  }

  lemma InstalledIsConsistent(capacity: nat, generation: nat)
    requires generation != 0
    ensures Consistent(Installed(generation), capacity) && Active(Installed(generation)) == generation
    ensures Acceptable(Installed(generation), capacity)
  {
    hide PackManifest, PackPointer, Intact, Complete, Sha256.Hash;
    var bank: Image := map[][ManifestKey(Odd(generation)) := PackManifest(EmptyTransfer(generation, true))];
    PackedLoads(map[], ManifestKey(Odd(generation)), EmptyTransfer(generation, true));
    PackedPointerLoads(bank, PointerA, generation);
    assert LoadManifest(Installed(generation), ManifestKey(Odd(generation))) == Some(EmptyTransfer(generation, true));
    assert LoadPointer(Installed(generation), PointerB) == None;
    EmptyTransferComplete(Installed(generation), capacity, generation, true);
  }

  /** Generation 3 offered over generation 1 leaves nothing to restore from. */
  lemma BeginUnsafeWitness(capacity: nat)
    ensures var d, m := Installed(1), EmptyTransfer(3, false);
            && Consistent(d, capacity) && Acceptable(d, capacity) && Active(d) == 1
            && !Safe(d[Pending := PackManifest(m)][ManifestKey(Odd(3)) := PackManifest(m)], capacity)
            && !Acceptable(d[Pending := PackManifest(m)][ManifestKey(Odd(3)) := PackManifest(m)], capacity)
  {
    hide *;
    InstalledIsConsistent(capacity, 1);
    OverwritingErases(Installed(1), capacity, EmptyTransfer(3, false));
  }

  /** Generation 3 shares the bank of generation 1. */
  lemma OverwritingErases(d: Image, capacity: nat, m: Manifest)
    requires Consistent(d, capacity) && Active(d) == 1 && m == EmptyTransfer(3, false)
    ensures !Safe(d[Pending := PackManifest(m)][ManifestKey(Odd(3)) := PackManifest(m)], capacity)
    ensures !Acceptable(d[Pending := PackManifest(m)][ManifestKey(Odd(3)) := PackManifest(m)], capacity)
  {
    hide Safe, Acceptable, Consistent, Active, PackManifest, Sha256.Hash;
    BeginSafeIff(d, capacity, m);
  }

  /** Writing a record into the inactive bank while nothing pending is finalized. */
  lemma RecordKeepsConsistent(d: Image, capacity: nat, generation: nat, slot: nat, b: Blob)
    requires Consistent(d, capacity) && Inactive(d, generation)
    requires var p := LoadManifest(d, Pending); p.Some? ==> !p.value.finalized
    ensures var e := d[RecordKey(Odd(generation), slot) := b];
            Consistent(e, capacity) && Active(e) == Active(d) && Untouched(d, e)
  {
    hide Whole, Complete, Intact;
    var e := d[RecordKey(Odd(generation), slot) := b];
    SafeFrame(d, e, capacity);
    assert LoadManifest(e, Pending) == LoadManifest(d, Pending);
  }

  /** `finalizeInactive` of a complete transfer, after either of its two saves. */
  lemma FinalizeKeepsConsistent(d: Image, capacity: nat, m: Manifest)
    requires Consistent(d, capacity) && Inactive(d, m.generation) && m.finalized
    requires Complete(d, capacity, m) && BankManifestFits(d, m)
    ensures var d1 := d[Pending := PackManifest(m)];
            var d2 := d1[ManifestKey(Odd(m.generation)) := PackManifest(m)];
            && Consistent(d1, capacity) && Active(d1) == Active(d) && Untouched(d, d1)
            && Complete(d1, capacity, m) && BankManifestFits(d1, m)
            && Consistent(d2, capacity) && Active(d2) == Active(d) && Untouched(d, d2)
            && Complete(d2, capacity, m) && BankManifestFits(d2, m)
  {
    hide PackManifest, Whole, Complete, Intact;
    var d1 := d[Pending := PackManifest(m)];
    var d2 := d1[ManifestKey(Odd(m.generation)) := PackManifest(m)];
    PackedLoads(d, Pending, m);
    PackedLoads(d1, ManifestKey(Odd(m.generation)), m);
    SafeFrame(d, d1, capacity);
    SafeFrame(d, d2, capacity);
    CompleteFrame(d, d1, capacity, m);
    CompleteFrame(d, d2, capacity, m);
    assert LoadManifest(d1, ManifestKey(Odd(m.generation))) == LoadManifest(d, ManifestKey(Odd(m.generation)));
    assert LoadManifest(d2, Pending) == LoadManifest(d1, Pending);
  }

  /** The slot the next pointer goes to: never decided by the new generation. */
  function PointerSlot(d: Image): Key {
    if Odd(Active(d)) then PointerA else PointerB
  }

  lemma PromoteActivates(d: Image, generation: nat)
    requires generation >= Active(d)
    ensures Active(d[PointerSlot(d) := PackPointer(generation)]) == generation
  {
    hide PackPointer, Intact;
    PackedPointerLoads(d, PointerSlot(d), generation);
    var e := d[PointerSlot(d) := PackPointer(generation)];
    var other := if PointerSlot(d) == PointerA then PointerB else PointerA;
    assert LoadPointer(e, other) == LoadPointer(d, other);
  }

  /**
   Switching the pointer to a complete transfer is safe exactly when the bank holds
   its manifest, and accepted by the next start exactly when that one is finalized too.
   */
  lemma PromoteSafeIff(d: Image, capacity: nat, m: Manifest)
    requires Consistent(d, capacity) && m.generation >= Active(d) && m.generation != 0
    requires Complete(d, capacity, m) && BankManifestFits(d, m)
    ensures var e := d[PointerSlot(d) := PackPointer(m.generation)];
            && Active(e) == m.generation
            && (Safe(e, capacity) <==> LoadManifest(d, ManifestKey(Odd(m.generation))).Some?)
            && (Acceptable(e, capacity) <==> BankFinalized(d, m.generation))
            && PendingSound(e, capacity)
            && Complete(e, capacity, m) && BankManifestFits(e, m) && Untouched(d, e)
  {
    hide PackPointer, Complete, Intact, PointerSlot;
    var e := d[PointerSlot(d) := PackPointer(m.generation)];
    PromoteActivates(d, m.generation);
    PointerSlotIsPointer(d);
    CompleteFrame(d, e, capacity, m);
    var key := ManifestKey(Odd(m.generation));
    assert LoadManifest(e, key) == LoadManifest(d, key);
    var b := LoadManifest(d, key);
    if b.Some? {
      CompleteSame(e, capacity, m, b.value);
      assert b.value.(generation := m.generation) == b.value;
    }
    var p := LoadManifest(d, Pending);
    assert LoadManifest(e, Pending) == p;
    if p.Some? {
      CompleteFrame(d, e, capacity, p.value);
      assert LoadManifest(e, ManifestKey(Odd(p.value.generation))) == LoadManifest(d, ManifestKey(Odd(p.value.generation)));
    }
  }

  /** A finalized transfer whose bank manifest is gone is promoted to something that cannot be restored. */
  lemma PromoteUnsafeWitness(capacity: nat)
    ensures var m := EmptyTransfer(1, true);
            var d: Image := map[][Pending := PackManifest(m)];
            && Consistent(d, capacity) && Complete(d, capacity, m)
            && Active(d[PointerSlot(d) := PackPointer(1)]) == 1
            && !Safe(d[PointerSlot(d) := PackPointer(1)], capacity)
            && !Acceptable(d[PointerSlot(d) := PackPointer(1)], capacity)
  {
    hide PackManifest, PackPointer, Complete, Intact, Sha256.Hash;
    var m := EmptyTransfer(1, true);
    var d: Image := map[][Pending := PackManifest(m)];
    PackedLoads(map[], Pending, m);
    EmptyTransferComplete(d, capacity, 1, true);
    PromoteSafeIff(d, capacity, m);
  }

  /**
   What a power cut between the two saves of `finalizeInactive` leaves of an empty
   transfer of generation 1 into empty storage.
   */
  function HalfSealed(): Image {
    var begun := EmptyTransfer(1, false);
    map[][Pending := PackManifest(begun)][ManifestKey(true) := PackManifest(begun)][Pending := PackManifest(EmptyTransfer(1, true))]
  }

  /** Offered again and promoted, the transfer has its bank manifest and is still not accepted by the next start. */
  lemma PromoteUnfinalizedWitness(capacity: nat)
    ensures var d := HalfSealed();
            && Consistent(d, capacity) && Complete(d, capacity, EmptyTransfer(1, true))
            && LoadManifest(d, Pending) == Some(EmptyTransfer(1, true))
            && LoadManifest(d, ManifestKey(true)) == Some(EmptyTransfer(1, false))
            && Active(d[PointerSlot(d) := PackPointer(1)]) == 1
            && Safe(d[PointerSlot(d) := PackPointer(1)], capacity)
            && !Acceptable(d[PointerSlot(d) := PackPointer(1)], capacity)
  {
    hide PackManifest, PackPointer, Complete, Intact, Sha256.Hash, Safe, Acceptable, PointerSlot;
    var begun, m := EmptyTransfer(1, false), EmptyTransfer(1, true);
    var d := HalfSealed();
    PackedLoads(map[Pending := PackManifest(begun)], ManifestKey(true), begun);
    PackedLoads(d - {Pending}, Pending, m);
    assert d == (d - {Pending})[Pending := PackManifest(m)];
    assert LoadManifest(d, ManifestKey(true)) == Some(begun);
    EmptyTransferComplete(d, capacity, 1, true);
    NothingActive(d, capacity);
    PromoteSafeIff(d, capacity, m);
  }

  lemma NothingActive(d: Image, capacity: nat)
    requires PointerA !in d && PointerB !in d
    ensures Active(d) == 0 && Safe(d, capacity)
  {}

  /**
   The generation switched away from stays on record as the previous one exactly
   when its pointer is not the one overwritten.
   */
  lemma PromoteKeepsPreviousIff(d: Image, generation: nat)
    requires generation > Active(d) > 0
    ensures var e := d[PointerSlot(d) := PackPointer(generation)];
            Generations(e) == (generation, Active(d)) <==> LoadPointer(d, OtherSlot(d)) == Some(Active(d))
  {
    hide PackPointer, Intact;
    PackedPointerLoads(d, PointerSlot(d), generation);
    var e := d[PointerSlot(d) := PackPointer(generation)];
    assert LoadPointer(e, OtherSlot(d)) == LoadPointer(d, OtherSlot(d));
  }

  function OtherSlot(d: Image): Key {
    if Odd(Active(d)) then PointerB else PointerA
  }

  /** Alternating parities keep the active pointer out of the next slot for good. */
  lemma AlternationKeepsPrevious(d: Image, generation: nat)
    requires generation > Active(d) && Odd(generation) != Odd(Active(d))
    ensures var e := d[PointerSlot(d) := PackPointer(generation)];
            LoadPointer(e, OtherSlot(e)) == Some(Active(e)) && Active(e) == generation
  {
    hide PackPointer, Intact;
    PackedPointerLoads(d, PointerSlot(d), generation);
    PromoteActivates(d, generation);
  }

  lemma PointerSlotIsPointer(d: Image)
    ensures PointerSlot(d) == PointerA || PointerSlot(d) == PointerB
  {}

  lemma CompleteSame(d: Image, capacity: nat, m: Manifest, n: Manifest)
    requires Complete(d, capacity, m) && SameTransfer(m, n)
    ensures Complete(d, capacity, n)
  {}

  /** The keys `discardGeneration` may remove. */
  predicate Discardable(d: Image, generation: nat, k: Key) {
    match k
    case PointerA => LoadPointer(d, k) == Some(generation)
    case PointerB => LoadPointer(d, k) == Some(generation)
    case Pending => var p := LoadManifest(d, k); p.Some? && p.value.generation == generation
    case ManifestKey(odd) => odd == Odd(generation)
    case RecordKey(_, _) => false
  }

  /** `e` is `d` without some of the keys that discarding `generation` may remove. */
  ghost predicate Discarded(d: Image, e: Image, generation: nat) {
    forall k :: Agree(d, e, k) || (k !in e && Discardable(d, generation, k))
  }

  /** One more removal, decided by what is still stored. */
  lemma DiscardedStep(d: Image, e: Image, f: Image, generation: nat, k: Key)
    requires Discarded(d, e, generation)
    requires f == e || (Discardable(e, generation, k) && f == e - {k})
    ensures Discarded(d, f, generation)
    ensures forall l :: Discardable(d, generation, l) && l in f ==> Discardable(f, generation, l)
  {
    hide Intact;
    assert Agree(d, e, k) || k !in e;
    forall l: Key
      ensures Agree(d, f, l) || (l !in f && Discardable(d, generation, l))
    {
      assert Agree(d, e, l) || (l !in e && Discardable(d, generation, l));
    }
    forall l | Discardable(d, generation, l) && l in f
      ensures Discardable(f, generation, l)
    {
      assert Agree(d, f, l);
    }
  }

  /** Neither the active generation nor one in its bank; no generation is numbered zero. */
  predicate Spares(d: Image, generation: nat) {
    generation == 0 || (generation != Active(d) && Inactive(d, generation))
  }

  lemma SparesIff(d: Image, generation: nat)
    requires generation > 0
    ensures Spares(d, generation)
            <==> generation != Active(d) && (Active(d) == 0 || generation % 2 != Active(d) % 2)
  {}

  /** The newest generation among the pointers other than `generation`. */
  function ActiveWithout(d: Image, generation: nat): nat {
    if Active(d) == generation then Generations(d).1 else Active(d)
  }

  /** What becomes active without `generation` lies in the other bank and can be restored. */
  predicate AcceptableWithout(d: Image, capacity: nat, generation: nat) {
    var next := ActiveWithout(d, generation);
    next != 0 ==> Odd(next) != Odd(generation) && Restorable(d, capacity, next)
  }

  /**
   After a complete discard the next start accepts what is active exactly when that
   generation is in the other bank and can be restored from.
   */
  lemma DiscardAcceptableIff(d: Image, e: Image, capacity: nat, generation: nat)
    requires Discarded(d, e, generation) && generation != 0
    requires forall k :: Discardable(d, generation, k) ==> k !in e
    ensures Active(e) == ActiveWithout(d, generation)
    ensures Acceptable(e, capacity) <==> AcceptableWithout(d, capacity, generation)
  {
    hide Intact, Complete;
    var next := ActiveWithout(d, generation);
    assert Agree(d, e, PointerA) || PointerA !in e;
    assert Agree(d, e, PointerB) || PointerB !in e;
    assert Active(e) == next;
    var key := ManifestKey(Odd(next));
    assert Agree(d, e, key) || key !in e;
    assert Odd(next) != Odd(generation) ==> !Discardable(d, generation, key);
    if next != 0 && Odd(next) != Odd(generation) && LoadManifest(d, key).Some? {
      var m := LoadManifest(d, key).value.(generation := next);
      forall i | 0 <= i < m.recordCount
        ensures Agree(d, e, RecordKey(Odd(m.generation), i))
      {
        assert !Discardable(d, generation, RecordKey(Odd(m.generation), i));
      }
      CompleteFrame(d, e, capacity, m);
    }
  }

  /** Dropping generation 3, which was never there, destroys generation 1. */
  lemma DiscardUnsafeWitness(capacity: nat)
    ensures var d := Installed(1);
            && Consistent(d, capacity) && Acceptable(d, capacity) && Discarded(d, d - {ManifestKey(Odd(3))}, 3)
            && !Safe(d - {ManifestKey(Odd(3))}, capacity) && !Acceptable(d - {ManifestKey(Odd(3))}, capacity)
  {
    hide PackManifest, PackPointer, Complete, Intact, Sha256.Hash;
    var d, e := Installed(1), Installed(1) - {ManifestKey(Odd(3))};
    InstalledIsConsistent(capacity, 1);
    assert LoadPointer(d, PointerB) == None && LoadManifest(d, Pending) == None;
    DiscardAcceptableIff(d, e, capacity, 3);
  }

  /** Discarding a generation other than the active one, with any removal failing. */
  lemma DiscardKeepsConsistent(d: Image, e: Image, capacity: nat, generation: nat)
    requires Consistent(d, capacity) && Discarded(d, e, generation)
    requires generation != 0 && generation != Active(d) && Inactive(d, generation)
    ensures Consistent(e, capacity) && Active(e) == Active(d) && Untouched(d, e)
  {
    hide Intact, Complete;
    DiscardUntouched(d, e, generation);
    DiscardKeepsActive(d, e, generation);
    var p := LoadManifest(e, Pending);
    assert Agree(d, e, Pending) || Pending !in e;
    if p.Some? && p.value.finalized {
      DiscardKeepsComplete(d, e, capacity, generation, p.value);
    }
    if Active(d) != 0 {
      assert Agree(d, e, ManifestKey(Odd(Active(d))));
      DiscardKeepsComplete(d, e, capacity, generation, LoadManifest(d, ManifestKey(Odd(Active(d)))).value);
    }
  }

  lemma DiscardUntouched(d: Image, e: Image, generation: nat)
    requires Discarded(d, e, generation) && Inactive(d, generation)
    ensures Untouched(d, e)
  {
    if Active(d) != 0 {
      forall k: Key | k.ManifestKey? || k.RecordKey?
        ensures k.odd == Odd(Active(d)) ==> Agree(d, e, k)
      {
        assert Agree(d, e, k) || (k !in e && Discardable(d, generation, k));
      }
    }
  }

  lemma DiscardKeepsActive(d: Image, e: Image, generation: nat)
    requires Discarded(d, e, generation) && generation != Active(d)
    ensures Active(e) == Active(d)
  {
    hide Intact;
    assert Agree(d, e, PointerA) || (PointerA !in e && Discardable(d, generation, PointerA));
    assert Agree(d, e, PointerB) || (PointerB !in e && Discardable(d, generation, PointerB));
  }

  /** Discarding removes no record and leaves no foreign manifest behind. */
  lemma DiscardKeepsComplete(d: Image, e: Image, capacity: nat, generation: nat, m: Manifest)
    requires Discarded(d, e, generation)
    ensures Complete(e, capacity, m) == Complete(d, capacity, m)
    ensures BankManifestFits(d, m) ==> BankManifestFits(e, m)
  {
    hide Intact, Complete;
    forall i | 0 <= i < m.recordCount
      ensures Agree(d, e, RecordKey(Odd(m.generation), i))
    {
      assert !Discardable(d, generation, RecordKey(Odd(m.generation), i));
    }
    CompleteFrame(d, e, capacity, m);
    var k := ManifestKey(Odd(m.generation));
    assert Agree(d, e, k) || k !in e;
  }
}
