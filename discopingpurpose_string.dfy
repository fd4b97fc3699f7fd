/**
  The generated name function of the disco ping purpose enumeration
  (wgengine/magicsock/discopingpurpose_string.go).

  A purpose is a small signed integer. The three known purposes have fixed
  ordinals 0, 1 and 2; their names are packed into one string constant and
  cut out of it through an offset table. Any other value, negative ones
  included, is rendered as "discoPingPurpose(<decimal>)".
*/
module Magicsock {

  import opened Wrappers
  import Decimal

  const MinInt64: int := -0x8000_0000_0000_0000
  const MaxInt64: int := 0x7fff_ffff_ffff_ffff

  /** The purpose type; String widens it to int64, so its values are 64-bit signed. */
  newtype DiscoPingPurpose = x: int | MinInt64 <= x <= MaxInt64

  /** Element type of the offset table. */
  newtype Uint8 = x: int | 0 <= x < 0x100

  // The named ordinals the generated code was produced against.
  const PingDiscovery: DiscoPingPurpose := 0
  const PingHeartbeat: DiscoPingPurpose := 1
  const PingCLI: DiscoPingPurpose := 2

  /** All known names, back to back. */
  const PackedNames: string := "DiscoveryHeartbeatCLI"

  /** Name k occupies PackedNames[NameIndex[k] .. NameIndex[k + 1]]. */
  const NameIndex: seq<Uint8> := [0, 9, 18, 21]

  /** What every out-of-range value's rendering starts with. */
  const FallbackPrefix: string := "discoPingPurpose("

  /**
    The compile-time guard: `x[c - k]` on an array of length one compiles
    only when the index c - k is 0.
  */
  predicate GuardIndexValid(c: DiscoPingPurpose, k: int) {
    0 <= c as int - k < 1
  }

  predicate OrdinalGuardsHold(discovery: DiscoPingPurpose, heartbeat: DiscoPingPurpose, cli: DiscoPingPurpose) {
    GuardIndexValid(discovery, 0) && GuardIndexValid(heartbeat, 1) && GuardIndexValid(cli, 2)
  }

  /** The guard accepts exactly the ordinals 0, 1, 2, and the constants pass it. */
  lemma OrdinalsPinned(discovery: DiscoPingPurpose, heartbeat: DiscoPingPurpose, cli: DiscoPingPurpose)
    ensures OrdinalGuardsHold(discovery, heartbeat, cli) <==> discovery == 0 && heartbeat == 1 && cli == 2
    ensures OrdinalGuardsHold(PingDiscovery, PingHeartbeat, PingCLI)
  {
  }

  /** An offset table that cuts a packed string into non-empty, adjacent, in-bounds pieces. */
  predicate IndexTableWellFormed(packed: string, index: seq<Uint8>) {
    && |index| >= 1
    && index[0] == 0
    && (forall k :: 0 <= k < |index| - 1 ==> index[k] < index[k + 1])
    && index[|index| - 1] as int == |packed|
  }

  /** Name k of the table is a non-empty slice that lies inside the packed string. */
  predicate SliceInBounds(packed: string, index: seq<Uint8>, k: int) {
    0 <= k < |index| - 1 && index[k] < index[k + 1] && index[k + 1] as int <= |packed|
  }

  lemma NameIndexWellFormed()
    ensures IndexTableWellFormed(PackedNames, NameIndex)
    ensures |NameIndex| - 1 == 3
    ensures forall k :: 0 <= k < |NameIndex| - 1 ==> SliceInBounds(PackedNames, NameIndex, k)
  {
  }

  predicate StartsWith(s: string, prefix: string) {
    |prefix| <= |s| && s[..|prefix|] == prefix
  }

  /**
    The purpose's name if it is one of the known purposes, otherwise
    "discoPingPurpose(" + its decimal value + ")".
  */
  function String(i: DiscoPingPurpose): (r: string)
    ensures |r| > 0
    ensures StartsWith(r, FallbackPrefix) <==> i < 0 || i > 2
    ensures 0 <= i <= 2 ==> |r| <= |PackedNames|
  {
    if i < 0 || i >= (|NameIndex| - 1) as DiscoPingPurpose then
      FallbackPrefix + Decimal.FormatInt(i as int) + ")"
    else
      PackedNames[NameIndex[i] as int .. NameIndex[i + 1] as int]
  }

  /** Each known ordinal renders as its own name. */
  lemma KnownPurposeNames()
    ensures String(PingDiscovery) == "Discovery"
    ensures String(PingHeartbeat) == "Heartbeat"
    ensures String(PingCLI) == "CLI"
  {
  }

  /** The names of the known purposes, in ordinal order, rebuild the packed constant. */
  lemma NamesConcatenate()
    ensures String(0) + String(1) + String(2) == PackedNames
  {
  }

  /** Out of range, the rendering is the prefix, the signed decimal value, and ')'. */
  lemma FallbackRendering(i: DiscoPingPurpose)
    requires i < 0 || i > 2
    ensures String(i) == FallbackPrefix + Decimal.FormatInt(i as int) + ")"
    ensures String(i)[|FallbackPrefix|] == '-' <==> i < 0
    ensures Decimal.ParseCanonical(String(i)[|FallbackPrefix| .. |String(i)| - 1]) == Some(i as int)
  {
    var r := String(i);
    assert r[|FallbackPrefix| .. |r| - 1] == Decimal.FormatInt(i as int);
    Decimal.FormatParse(i as int);
  }

  /** No two purpose values, known or not, share a rendering. */
  lemma StringInjective(i: DiscoPingPurpose, j: DiscoPingPurpose)
    ensures String(i) == String(j) ==> i == j
  {
    if String(i) == String(j) {
      if i < 0 || i > 2 {
        FallbackRendering(i);
        FallbackRendering(j);
      } else {
        KnownPurposeNames();
      }
    }
  }

  /** The closed set of known purposes. */
  datatype Purpose = Discovery | Heartbeat | CLI

  /** The ordinal constant of each known purpose. */
  function Ordinal(p: Purpose): (i: DiscoPingPurpose)
    ensures 0 <= i < (|NameIndex| - 1) as DiscoPingPurpose
  {
    match p
    case Discovery => PingDiscovery
    case Heartbeat => PingHeartbeat
    case CLI => PingCLI
  }

  /** Identifies the known purpose an integer denotes, if any. */
  function FromOrdinal(i: DiscoPingPurpose): (r: Option<Purpose>)
    ensures r.Some? <==> 0 <= i <= 2
    ensures r.Some? ==> Ordinal(r.value) == i
  {
    if i == PingDiscovery then Some(Discovery)
    else if i == PingHeartbeat then Some(Heartbeat)
    else if i == PingCLI then Some(CLI)
    else None
  }

  lemma OrdinalRoundTrip(p: Purpose)
    ensures FromOrdinal(Ordinal(p)) == Some(p)
  {
  }

  /** The identifier each purpose constant is declared under. */
  function Identifier(p: Purpose): (id: string)
    ensures StartsWith(id, TrimmedPrefix) && |id| > |TrimmedPrefix|
  {
    match p
    case Discovery => "pingDiscovery"
    case Heartbeat => "pingHeartbeat"
    case CLI => "pingCLI"
  }

  /** The prefix the generator trims from identifiers to form names. */
  const TrimmedPrefix: string := "ping"

  /** A known purpose renders as its identifier with the "ping" prefix trimmed. */
  lemma StringIsTrimmedIdentifier(p: Purpose)
    ensures StartsWith(Identifier(p), TrimmedPrefix)
    ensures String(Ordinal(p)) == Identifier(p)[|TrimmedPrefix|..]
  {
    KnownPurposeNames();
  }

  /** A value is rendered as a name exactly when it is the ordinal of a known purpose. */
  lemma NamedExactlyWhenKnown(i: DiscoPingPurpose)
    ensures !StartsWith(String(i), FallbackPrefix) <==> FromOrdinal(i).Some?
    ensures FromOrdinal(i).Some? ==> String(i) == Identifier(FromOrdinal(i).value)[|TrimmedPrefix|..]
  {
    KnownPurposeNames();
  }
}
