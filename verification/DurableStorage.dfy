/**
 Board storage as the configuration adapter sees it: atomic writes and removes of
 single keys, any of which may fail, with power that can be cut at any of them.
 */
module DurableStorage {
  import opened Bytes
  import opened Fnv

  /** The fixed keys of the two banks; `odd` is the low bit of the generation. */
  datatype Key =
    | PointerA
    | PointerB
    | Pending
    | ManifestKey(odd: bool)
    | RecordKey(odd: bool, slot: nat)

  /** The durable structures, as stored. */
  datatype Blob =
    | PointerBlob(magic: nat, generation: nat, seal: Word)
    | ManifestBlob(magic: nat, generation: nat, schemaVersion: nat, maximumRecordBytes: nat,
                   recordCount: nat, sha256: seq<byte>, finalized: bool, seal: Word)
    | RecordBlob(magic: nat, generation: nat, sequence: nat, kind: byte, body: seq<byte>, seal: Word)

  type Image = map<Key, Blob>

  /** The text key of a bank entry, as `manifestKey` and `recordKey` compose it. */
  function Render(k: Key): string
    requires k.RecordKey? ==> k.slot < 1000
  {
    match k
    case PointerA => "flova_l_a"
    case PointerB => "flova_l_b"
    case Pending => "flova_l_p"
    case ManifestKey(odd) => "flova_l_" + [if odd then '1' else '0'] + "_m"
    case RecordKey(odd, slot) =>
      "flova_l_" + [if odd then '1' else '0'] + "_r_"
      + [Digit(slot / 100), Digit(slot / 10 % 10), Digit(slot % 10)]
  }

  function Digit(d: nat): char
    requires d < 10
  {
    "0123456789"[d]
  }

  lemma DigitInjective(d: nat, e: nat)
    requires d < 10 && e < 10 && Digit(d) == Digit(e)
    ensures d == e
  {}

  /** The lengths tell the kinds of key apart; one character is the bank, three are the slot. */
  lemma RenderShape(k: Key)
    requires k.RecordKey? ==> k.slot < 1000
    ensures match k
            case PointerA => |Render(k)| == 9 && Render(k)[8] == 'a'
            case PointerB => |Render(k)| == 9 && Render(k)[8] == 'b'
            case Pending => |Render(k)| == 9 && Render(k)[8] == 'p'
            case ManifestKey(odd) => |Render(k)| == 11 && Render(k)[8] == (if odd then '1' else '0')
            case RecordKey(odd, slot) =>
              && |Render(k)| == 15 && Render(k)[8] == (if odd then '1' else '0')
              && Render(k)[12] == Digit(slot / 100) && Render(k)[13] == Digit(slot / 10 % 10)
              && Render(k)[14] == Digit(slot % 10)
  {}

  lemma SlotInjective(a: nat, b: nat)
    requires a < 1000 && b < 1000
    requires Digit(a / 100) == Digit(b / 100) && Digit(a / 10 % 10) == Digit(b / 10 % 10) && Digit(a % 10) == Digit(b % 10)
    ensures a == b
  {
    hide Digit;
    DigitInjective(a / 100, b / 100);
    DigitInjective(a / 10 % 10, b / 10 % 10);
    DigitInjective(a % 10, b % 10);
    assert a / 10 / 10 == a / 100 && b / 10 / 10 == b / 100;
  }

  /** Distinct structures never share a text key. */
  lemma RenderInjective(k: Key, l: Key)
    requires k.RecordKey? ==> k.slot < 1000
    requires l.RecordKey? ==> l.slot < 1000
    requires Render(k) == Render(l)
    ensures k == l
  {
    hide Render, Digit;
    RenderShape(k);
    RenderShape(l);
    if k.RecordKey? {
      assert l.RecordKey?;
      SlotInjective(k.slot, l.slot);
    }
  }

  class Storage {
    var image: Image
    var powered: bool
    const reliable: bool  // no write fails and the power stays on

    constructor (image: Image, reliable: bool)
      ensures this.image == image && powered && this.reliable == reliable
    {
      this.image, this.powered, this.reliable := image, true, reliable;
    }

    /** The board restarts: the durable keys are what they were. */
    method PowerUp()
      modifies this
      ensures powered && image == old(image)
    {
      powered := true;
    }

    /** Reads succeed while the power is on. */
    method Read(key: Key) returns (found: bool, value: Blob)
      ensures found == (powered && key in image)
      ensures found ==> value == image[key]
    {
      found := powered && key in image;
      value := if found then image[key] else PointerBlob(0, 0, 0);
    }

    /** One atomic replacement. A failed one leaves the old or the new structure. */
    method Write(key: Key, value: Blob) returns (ok: bool)
      modifies this
      ensures image == old(image) || (old(powered) && image == old(image)[key := value])
      ensures ok ==> powered && image == old(image)[key := value]
      ensures powered ==> old(powered)
      ensures reliable && old(powered) ==> ok
    {
      ok := false;
      if powered {
        var works: bool, lands: bool, survives: bool := *, *, *;
        ok := reliable || works;
        if ok || lands {
          image := image[key := value];
        }
        powered := ok || survives;
      }
    }

    /** One atomic removal, which may fail likewise. */
    method Remove(key: Key) returns (ok: bool)
      modifies this
      ensures image == old(image) || (old(powered) && image == old(image) - {key})
      ensures ok ==> powered && image == old(image) - {key}
      ensures powered ==> old(powered)
      ensures reliable && old(powered) ==> ok
    {
      ok := false;
      if powered {
        var works: bool, lands: bool, survives: bool := *, *, *;
        ok := reliable || works;
        if ok || lands {
          image := image - {key};
        }
        powered := ok || survives;
      }
    }
  }
}
