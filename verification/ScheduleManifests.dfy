/** The compiled schedule manifest that the offline runtime executes. */
module ScheduleManifests {
  import opened Bytes
  import opened Fnv
  import opened ConfigurationUnits

  const MANIFEST_MAGIC: nat := 0x46534D32

  /** `legacy` is the single-action slot used when a schedule lists no actions. */
  datatype CompiledSchedule = CompiledSchedule(
    id: string, enabled: bool, actions: seq<Action>, legacy: Action, occurrences: seq<nat>)

  datatype Manifest = Manifest(
    magic: nat, revision: nat, generatedAt: nat, validUntil: nat, renewBefore: nat,
    schedules: seq<CompiledSchedule>, checksum: Word)

  const NO_ACTION: Action := Action(0, 0, Text(""))
  const EMPTY_SCHEDULE: CompiledSchedule := CompiledSchedule("", false, [], NO_ACTION, [])
  const EMPTY_MANIFEST: Manifest := Manifest(MANIFEST_MAGIC, 0, 0, 0, 0, [], 0)

  function TextBytes(s: string): seq<byte> {
    seq(|s|, i requires 0 <= i < |s| => (s[i] as int) % 256)
  }

  function ValueBytes(v: Value): seq<byte> {
    match v
    case Boolean(b) => LittleEndian(0, 4) + LittleEndian(if b then 1 else 0, 4)
    case Int64(i) => LittleEndian(1, 4) + LittleEndian(i % TWO_64, 8)
    case Float32(f) => LittleEndian(2, 4) + LittleEndian(f, 4)
    case Float64(d) => LittleEndian(3, 4) + LittleEndian(d, 8)
    case Text(t) => LittleEndian(4, 4) + TextBytes(t)
  }

  function ActionBytes(a: Action): seq<byte> {
    LittleEndian(a.offsetMs, 4) + LittleEndian(a.datastreamId, 4) + ValueBytes(a.value)
  }

  function ActionsBytes(actions: seq<Action>): seq<byte> {
    if actions == [] then [] else ActionsBytes(actions[..|actions| - 1]) + ActionBytes(actions[|actions| - 1])
  }

  function TimesBytes(times: seq<nat>): seq<byte> {
    if times == [] then [] else TimesBytes(times[..|times| - 1]) + LittleEndian(times[|times| - 1], 8)
  }

  function ScheduleBytes(s: CompiledSchedule): seq<byte> {
    TextBytes(s.id) + LittleEndian(if s.enabled then 1 else 0, 4) + LittleEndian(|s.actions|, 4)
    + ActionsBytes(if s.actions == [] then [s.legacy] else s.actions)
    + LittleEndian(|s.occurrences|, 4) + TimesBytes(s.occurrences)
  }

  function SchedulesBytes(ss: seq<CompiledSchedule>): seq<byte> {
    if ss == [] then [] else SchedulesBytes(ss[..|ss| - 1]) + ScheduleBytes(ss[|ss| - 1])
  }

  /** The checksum covers everything that runs, and only the slots in use. */
  function ManifestChecksum(m: Manifest): Word { Fnv1a(ManifestBytes(m)) }

  function ManifestBytes(m: Manifest): seq<byte> {
    LittleEndian(m.revision, 4) + LittleEndian(m.generatedAt, 8) + LittleEndian(m.validUntil, 8)
    + LittleEndian(m.renewBefore, 8) + LittleEndian(|m.schedules|, 4) + SchedulesBytes(m.schedules)
  }

  lemma SmallNumber(n: nat, width: nat)
    requires n < 256 && width > 0
    ensures LittleEndian(n, width) == [n] + Zeros(width - 1)
  {
    assert n / 256 == 0;
    NoOctets(width - 1);
  }

  lemma {:induction false} NoOctets(width: nat)
    ensures LittleEndian(0, width) == Zeros(width)
  {
    if width > 0 {
      NoOctets(width - 1);
      assert Zeros(width) == [0] + Zeros(width - 1);
    }
  }

  /** What is mixed in of a value, the type first. */
  lemma ValueExamples()
    ensures ValueBytes(Boolean(true)) == [0, 0, 0, 0, 1, 0, 0, 0]
    ensures ValueBytes(Boolean(false)) == [0, 0, 0, 0, 0, 0, 0, 0]
    ensures ValueBytes(Int64(7)) == [1, 0, 0, 0, 7, 0, 0, 0, 0, 0, 0, 0]
    ensures ValueBytes(Float32(7)) == [2, 0, 0, 0, 7, 0, 0, 0]
    ensures ValueBytes(Float64(7)) == [3, 0, 0, 0, 7, 0, 0, 0, 0, 0, 0, 0]
    ensures ValueBytes(Text("on")) == [4, 0, 0, 0, 111, 110]
  {
    hide LittleEndian;
    forall n: nat, w: nat | n < 8 && (w == 4 || w == 8)
      ensures LittleEndian(n, w) == [n] + Zeros(w - 1)
    {
      SmallNumber(n, w);
    }
    assert Zeros(3) == [0, 0, 0] && Zeros(7) == [0, 0, 0, 0, 0, 0, 0];
  }

  /** All that is mixed in of a schedule with an id, two actions and two occurrences. */
  lemma ScheduleExample(a: Action, b: Action)
    ensures ScheduleBytes(CompiledSchedule("12", true, [a, b], a, [9, 10]))
            == [49, 50] + [1, 0, 0, 0] + [2, 0, 0, 0] + (ActionBytes(a) + ActionBytes(b))
               + [2, 0, 0, 0] + ([9, 0, 0, 0, 0, 0, 0, 0] + [10, 0, 0, 0, 0, 0, 0, 0])
    ensures ScheduleBytes(CompiledSchedule("12", false, [], a, []))
            == [49, 50] + [0, 0, 0, 0] + [0, 0, 0, 0] + ActionBytes(a) + [0, 0, 0, 0] + []
  {
    hide LittleEndian, ActionBytes;
    Octets4(0);
    Octets4(1);
    Octets4(2);
    Octets8(9);
    Octets8(10);
    Actions(a, b);
    Times(9, 10);
    assert TextBytes("12") == [49, 50];
    assert TimesBytes([]) == [];
  }

  lemma ActionExample(value: Value)
    ensures ActionBytes(Action(5, 6, value)) == [5, 0, 0, 0] + [6, 0, 0, 0] + ValueBytes(value)
  {
    hide LittleEndian, ValueBytes;
    Octets4(5);
    Octets4(6);
  }

  lemma Octets4(n: nat)
    requires n < 256
    ensures LittleEndian(n, 4) == [n, 0, 0, 0]
  {
    SmallNumber(n, 4);
  }

  lemma Octets8(n: nat)
    requires n < 256
    ensures LittleEndian(n, 8) == [n, 0, 0, 0, 0, 0, 0, 0]
  {
    SmallNumber(n, 8);
  }

  lemma Actions(a: Action, b: Action)
    ensures ActionsBytes([a]) == ActionBytes(a) && ActionsBytes([a, b]) == ActionBytes(a) + ActionBytes(b)
  {
    hide ActionBytes;
    assert [a, b][..1] == [a] && [a][..0] == [];
    assert ActionsBytes([a]) == ActionsBytes([]) + ActionBytes(a);
    assert ActionsBytes([a, b]) == ActionsBytes([a]) + ActionBytes(b);
  }

  lemma Times(t: nat, u: nat)
    ensures TimesBytes([t, u]) == LittleEndian(t, 8) + LittleEndian(u, 8)
  {
    hide LittleEndian;
    assert [t, u][..1] == [t] && [t][..0] == [];
    assert TimesBytes([t]) == TimesBytes([]) + LittleEndian(t, 8);
    assert TimesBytes([t, u]) == TimesBytes([t]) + LittleEndian(u, 8);
  }

  lemma TwoSchedules(s: CompiledSchedule, t: CompiledSchedule)
    ensures SchedulesBytes([s, t]) == ScheduleBytes(s) + ScheduleBytes(t)
  {
    hide ScheduleBytes;
    assert [s, t][..1] == [s] && [s][..0] == [];
    assert SchedulesBytes([s]) == SchedulesBytes([]) + ScheduleBytes(s);
    assert SchedulesBytes([s, t]) == SchedulesBytes([s]) + ScheduleBytes(t);
  }

  /** The numbers of the manifest come first, then its schedules in order. */
  lemma ManifestExample(s: CompiledSchedule, t: CompiledSchedule)
    ensures ManifestBytes(Manifest(0, 1, 2, 3, 4, [s, t], 0))
            == [1, 0, 0, 0] + [2, 0, 0, 0, 0, 0, 0, 0] + [3, 0, 0, 0, 0, 0, 0, 0] + [4, 0, 0, 0, 0, 0, 0, 0]
               + [2, 0, 0, 0] + (ScheduleBytes(s) + ScheduleBytes(t))
  {
    hide LittleEndian, ScheduleBytes;
    Octets4(1);
    Octets4(2);
    Octets8(2);
    Octets8(3);
    Octets8(4);
    TwoSchedules(s, t);
  }

  function FirstAction(s: CompiledSchedule): Action {
    if s.actions == [] then s.legacy else s.actions[0]
  }

  /** `ScheduleRuntime::valid` for a board profile. */
  predicate Well(b: Board, m: Manifest) {
    && m.magic == MANIFEST_MAGIC && m.revision != 0 && m.validUntil != 0 && m.renewBefore != 0
    && |m.schedules| <= b.scheduleCapacity
    && m.checksum == ManifestChecksum(m)
    && forall i :: 0 <= i < |m.schedules| ==>
         && |m.schedules[i].occurrences| <= b.occurrenceCapacity
         && |m.schedules[i].actions| <= SCHEDULE_ACTIONS
         && m.schedules[i].id != ""
         && ValidId(FirstAction(m.schedules[i]).datastreamId)
  }
}
