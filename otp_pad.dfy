/**
 * One-time pads: the pad value, the generator that draws pads from a secure
 * random source, and the ordered pad collection with lookup and removal by id.
 */
module OtpPad {
  import opened Prelude
  import opened Decimal
  import Parsers

  // ---------------------------------------------------------------------------
  // Pad

  /** One pad: an id string and its key values. */
  datatype Pad = Pad(id: string, keys: seq<u8>) {

    /** `Pad::new`: stores both as given; an empty key sequence is accepted. */
    static function New(id: string, keys: seq<u8>): (p: Pad)
      ensures p.GetId() == id && p.keys == keys
      ensures p.Len() == |keys|
    {
      Pad(id, keys)
    }

    /** `get_id`: the id the pad was built with. */
    function GetId(): (r: string)
      ensures r == id
    {
      id
    }

    /** `len`: the number of keys, one per key value. */
    function Len(): (n: nat)
      ensures n == |keys|
    {
      |keys|
    }
  }

  /** `test_pad_creation`: id "12345" with ten keys; and a pad with no keys. */
  lemma PadCreationExample()
    ensures Pad.New("12345", [1, 2, 3, 4, 5, 6, 7, 8, 9, 10]).GetId() == "12345"
    ensures Pad.New("12345", [1, 2, 3, 4, 5, 6, 7, 8, 9, 10]).Len() == 10
    ensures Pad.New("12345", []).Len() == 0
  {
  }

  // ---------------------------------------------------------------------------
  // Generator

  const KEY_SIZE: u8 := 5
  const MIN_KEY: u8 := 0
  const MAX_KEY: u8 := 10
  const MIN_ID: u32 := 10000
  const MAX_ID: u32 := 99999

  /**
   * The operating-system random source, seen only through its contract: a
   * draw from the half-open range [low, high) yields some value in it.
   * Which value is left open; nothing is assumed about distribution.
   */
  class SecureRandom {

    constructor () {
    }

    method GenRange(low: int, high: int) returns (v: int)
      requires low < high
      ensures low <= v < high
    {
      v :| low <= v < high;
    }
  }

  /** An id the generator can produce: the decimal rendering of a draw from [MIN_ID, MAX_ID). */
  ghost predicate IsGeneratedId(id: string) {
    exists v: nat :: MIN_ID as nat <= v < MAX_ID as nat && id == DecimalString(v)
  }

  /** What every generated pad satisfies, for `nbKeys` requested keys. */
  ghost predicate IsGeneratedPad(p: Pad, nbKeys: u8) {
    && IsGeneratedId(p.GetId())
    && p.Len() == nbKeys as nat * KEY_SIZE as nat
    && forall i :: 0 <= i < |p.keys| ==> MIN_KEY <= p.keys[i] < MAX_KEY
  }

  /** A generated id is five digits with no leading zero, denoting a value in [MIN_ID, MAX_ID). */
  lemma GeneratedIdFormat(id: string)
    requires IsGeneratedId(id)
    ensures |id| == 5 && AllDigits(id) && id[0] != '0'
    ensures MIN_ID as nat <= DecimalValue(id) < MAX_ID as nat
  {
    var v: nat :| MIN_ID as nat <= v < MAX_ID as nat && id == DecimalString(v);
    DecimalRoundTrip(v);
    assert Pow10(5) == 100000 && Pow10(4) == 10000;
    DecimalStringLength(v, 5);
  }

  class PadGenerator {
    const rng: SecureRandom

    constructor () {
      rng := new SecureRandom();
    }

    /**
     * `generate_pad`: one id draw, then `nbKeys * KEY_SIZE` key draws. The
     * product is a `u8`, so it must not exceed 255.
     */
    method GeneratePad(nbKeys: u8) returns (pad: Pad)
      requires nbKeys as nat * KEY_SIZE as nat <= U8_MAX
      ensures pad.Len() == nbKeys as nat * KEY_SIZE as nat
      ensures forall i :: 0 <= i < |pad.keys| ==> MIN_KEY <= pad.keys[i] < MAX_KEY
      ensures IsGeneratedId(pad.GetId())
    {
      var value := rng.GenRange(MIN_ID as int, MAX_ID as int);
      var id := DecimalString(value);
      var count: u8 := nbKeys * KEY_SIZE;
      var keys: seq<u8> := [];
      for i := 0 to count
        invariant |keys| == i as nat
        invariant forall j :: 0 <= j < |keys| ==> MIN_KEY <= keys[j] < MAX_KEY
      {
        var key := rng.GenRange(MIN_KEY as int, MAX_KEY as int);
        keys := keys + [key as u8];
      }
      pad := Pad.New(id, keys);
    }

    /**
     * `generate_pads`: `nbPads` pads, in the order drawn. With no pad to
     * draw, the key count is never multiplied.
     */
    method GeneratePads(nbPads: u8, nbKeys: u8) returns (pads: seq<Pad>)
      requires nbPads == 0 || nbKeys as nat * KEY_SIZE as nat <= U8_MAX
      ensures |pads| == nbPads as nat
      ensures forall i :: 0 <= i < |pads| ==> IsGeneratedPad(pads[i], nbKeys)
    {
      pads := [];
      for i := 0 to nbPads
        invariant |pads| == i as nat
        invariant forall j :: 0 <= j < |pads| ==> IsGeneratedPad(pads[j], nbKeys)
      {
        var pad := GeneratePad(nbKeys);
        pads := pads + [pad];
      }
    }
  }

  /**
   * The validator accepts key counts the generator cannot take: every count
   * from 52 to 100 is valid, but its product with KEY_SIZE does not fit a `u8`.
   */
  lemma ValidatedKeyCountMayOverflow(n: nat)
    requires 52 <= n <= 100
    ensures Parsers.ParseIntArg(DecimalString(n)) == Ok(n as u8)
    ensures n * KEY_SIZE as nat > U8_MAX
  {
    Parsers.ParseIntArgOfRendering(n);
  }

  // ---------------------------------------------------------------------------
  // Collection

  /** The first pad with this id, scanning from the front (`Iterator::find`). */
  function Find(pads: seq<Pad>, id: string): (r: Option<Pad>)
    ensures r.Some? ==> r.value.GetId() == id
    ensures r.Some? ==> exists k :: 0 <= k < |pads| && pads[k] == r.value &&
                                    forall j :: 0 <= j < k ==> pads[j].GetId() != id
    ensures r.None? <==> forall i :: 0 <= i < |pads| ==> pads[i].GetId() != id
  {
    if pads == [] then None
    else if pads[0].GetId() == id then Some(pads[0])
    else Find(pads[1..], id)
  }

  /** The pads `retain` keeps when deleting `id`: every pad with another id, in order. */
  function Retained(pads: seq<Pad>, id: string): (r: seq<Pad>)
    ensures |r| <= |pads|
    ensures forall i :: 0 <= i < |r| ==> r[i] in pads && r[i].GetId() != id
  {
    if pads == [] then []
    else if pads[0].GetId() == id then Retained(pads[1..], id)
    else [pads[0]] + Retained(pads[1..], id)
  }

  /** `Find` returns the pad at the lowest index whose id matches. */
  lemma {:induction false} FindFirstMatch(pads: seq<Pad>, id: string, k: nat)
    requires k < |pads| && pads[k].GetId() == id
    requires forall j :: 0 <= j < k ==> pads[j].GetId() != id
    ensures Find(pads, id) == Some(pads[k])
  {
    if k > 0 {
      FindFirstMatch(pads[1..], id, k - 1);
    }
  }

  /** Deletion distributes over concatenation: the relative order of kept pads is preserved. */
  lemma {:induction false} RetainedConcat(a: seq<Pad>, b: seq<Pad>, id: string)
    ensures Retained(a + b, id) == Retained(a, id) + Retained(b, id)
  {
    if a != [] {
      assert (a + b)[1..] == a[1..] + b;
      RetainedConcat(a[1..], b, id);
    } else {
      assert a + b == b;
    }
  }

  /** Deletion keeps every occurrence of every pad with another id, and none with this id. */
  lemma {:induction false} RetainedCount(pads: seq<Pad>, id: string, p: Pad)
    ensures multiset(Retained(pads, id))[p] == if p.GetId() == id then 0 else multiset(pads)[p]
  {
    if pads != [] {
      assert pads == [pads[0]] + pads[1..];
      RetainedCount(pads[1..], id, p);
    }
  }

  /** Deleting an id no pad has changes nothing, and only then. */
  lemma {:induction false} RetainedUnchanged(pads: seq<Pad>, id: string)
    ensures Retained(pads, id) == pads <==> Find(pads, id).None?
  {
    if pads != [] {
      RetainedUnchanged(pads[1..], id);
      if pads[0].GetId() == id {
        assert |Retained(pads, id)| < |pads|;
      } else {
        assert pads == [pads[0]] + pads[1..];
      }
    }
  }

  /** Deleting twice is deleting once. */
  lemma RetainedIdempotent(pads: seq<Pad>, id: string)
    ensures Retained(Retained(pads, id), id) == Retained(pads, id)
  {
    RetainedUnchanged(Retained(pads, id), id);
  }

  /** Deletion leaves lookups of every other id as they were. */
  lemma {:induction false} FindAfterRetained(pads: seq<Pad>, id: string, other: string)
    requires other != id
    ensures Find(Retained(pads, id), other) == Find(pads, other)
  {
    if pads != [] {
      FindAfterRetained(pads[1..], id, other);
    }
  }

  /** A sequence of pads is empty exactly when no lookup finds a pad. */
  lemma EmptyIffNothingFound(pads: seq<Pad>)
    ensures pads == [] <==> forall id :: Find(pads, id).None?
  {
    if pads != [] {
      assert Find(pads, pads[0].GetId()).Some?;
    }
  }

  /** The ordered collection; `delete_pad` changes it in place. */
  class PadCollection {
    var pads: seq<Pad>

    constructor (pads: seq<Pad>)
      ensures this.pads == pads
    {
      this.pads := pads;
    }

    /** `get_pad`: the first pad with this id, or none when no pad has it. */
    function GetPad(id: string): (r: Option<Pad>)
      reads this
      ensures r.Some? ==> r.value.GetId() == id
      ensures r.Some? ==> exists k :: 0 <= k < |pads| && pads[k] == r.value &&
                                      forall j :: 0 <= j < k ==> pads[j].GetId() != id
      ensures r.None? <==> forall i :: 0 <= i < |pads| ==> pads[i].GetId() != id
    {
      Find(pads, id)
    }

    /** `is_empty`. */
    function IsEmpty(): (r: bool)
      reads this
      ensures r <==> forall id :: GetPad(id).None?
    {
      EmptyIffNothingFound(pads);
      assert forall id :: GetPad(id) == Find(pads, id);
      |pads| == 0
    }

    /** `delete_pad`: removes every pad with this id, keeping the others in order. */
    method DeletePad(id: string)
      modifies this
      ensures pads == Retained(old(pads), id)
      ensures GetPad(id).None?
      ensures forall other :: other != id ==> GetPad(other) == old(GetPad(other))
      ensures IsEmpty() <==> forall i :: 0 <= i < |old(pads)| ==> old(pads)[i].GetId() == id
    {
      ghost var before := pads;
      pads := Retained(pads, id);
      forall other | other != id
        ensures Find(pads, other) == Find(before, other)
      {
        FindAfterRetained(before, id, other);
      }
      if exists i :: 0 <= i < |before| && before[i].GetId() != id {
        var i :| 0 <= i < |before| && before[i].GetId() != id;
        RetainedCount(before, id, before[i]);
        assert before[i] in multiset(before);
      }
    }
  }

  /**
   * `test_pad_collection`: a collection of one pad is not empty, finds the
   * pad by its id, and after deleting that id finds nothing and is empty.
   */
  method CollectionLifecycle() returns (emptyBefore: bool, found: Option<Pad>, foundAfter: Option<Pad>, emptyAfter: bool)
    ensures !emptyBefore
    ensures found.Some? && found.value.GetId() == "12345"
    ensures foundAfter.None?
    ensures emptyAfter
  {
    var pad := Pad.New("12345", [1, 2, 3, 4, 5]);
    var collection := new PadCollection([pad]);
    emptyBefore := collection.IsEmpty();
    found := collection.GetPad("12345");
    collection.DeletePad("12345");
    foundAfter := collection.GetPad("12345");
    emptyAfter := collection.IsEmpty();
  }
}
