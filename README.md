# Disco ping purpose names

This project models the generated `String` method of the disco ping purpose
enumeration in Tailscale's magicsock package
(`tailscale/wgengine/magicsock/discopingpurpose_string.go`). A disco ping is
sent for one of three purposes: Discovery (0), Heartbeat (1) or CLI (2). The
generated code packs the three names into the constant
`"DiscoveryHeartbeatCLI"` and cuts each name out with the offset table
`{0, 9, 18, 21}`. Any other value, negative ones included, is rendered as
`discoPingPurpose(<decimal value>)`.

Files:

- `wrappers.dfy`: `Option`.
- `decimal.dfy`: module `Decimal`, base-10 rendering of signed integers. It stands in for `strconv.FormatInt(v, 10)`. `ParseCanonical` is its inverse, and the two are proved to be a bijection between integers and canonical numerals.
- `discopingpurpose_string.dfy`: module `Magicsock`. It holds the purpose type, the ordinal constants and the check that pins them, the packed names and offset table, and `String`. It also holds the closed sum type `Purpose` with its ordinal mapping.

The purpose values are modelled as the 64-bit signed integers. The `i < 0` guard at line 24 shows that the type is signed. Every Go signed integer type fits in int64, and line 25 widens the value to int64, so the 64-bit range covers whatever width the type has. The Go declaration of the type is not part of this model. The offset table's elements are modelled as `Uint8`, matching `[...]uint8`.

## Model

| member | source | states |
|---|---|---|
| Magicsock.OrdinalsPinned | tailscale/wgengine/magicsock/discopingpurpose_string.go:10-17 | The compile-time index guards (`GuardIndexValid`, `OrdinalGuardsHold`) hold exactly when Discovery, Heartbeat and CLI are 0, 1 and 2. The declared constants `PingDiscovery`, `PingHeartbeat` and `PingCLI` pass them |
| Magicsock.NameIndexWellFormed | tailscale/wgengine/magicsock/discopingpurpose_string.go:19-21 | The offset table `NameIndex` starts at 0 and is strictly increasing. Its last entry is the length of the packed names `PackedNames`. There are 3 names, and each is a non-empty slice lying inside `PackedNames` |
| Magicsock.String | tailscale/wgengine/magicsock/discopingpurpose_string.go:23-28 | The result is never empty. It starts with "discoPingPurpose(" exactly when the value is outside 0..2. An in-range result is no longer than the packed names |
| Magicsock.KnownPurposeNames | tailscale/wgengine/magicsock/discopingpurpose_string.go:19-27 | Ordinal 0 renders as "Discovery", 1 as "Heartbeat" and 2 as "CLI" |
| Magicsock.NamesConcatenate | tailscale/wgengine/magicsock/discopingpurpose_string.go:19-27 | The renderings of 0, 1 and 2, joined in order, equal the packed name constant |
| Magicsock.FallbackRendering | tailscale/wgengine/magicsock/discopingpurpose_string.go:24-25 | An out-of-range value renders as the prefix, then its signed decimal, then ")". The digits start with '-' exactly when the value is negative, and they parse back to the value |
| Magicsock.StringInjective | tailscale/wgengine/magicsock/discopingpurpose_string.go:23-28 | Distinct purpose values never render alike. This covers known names, fallbacks, and a fallback against a known name |
| Magicsock.FromOrdinal | tailscale/wgengine/magicsock/discopingpurpose_string.go:14-16 | An integer denotes a known purpose exactly when it is in 0..2, and then that purpose's ordinal is the integer |
| Magicsock.Ordinal | tailscale/wgengine/magicsock/discopingpurpose_string.go:14-16 | Every known purpose's ordinal lies in the range the offset table names |
| Magicsock.Identifier | tailscale/wgengine/magicsock/discopingpurpose_string.go:4 | Every purpose constant's identifier starts with the trimmed "ping" prefix and has more after it |
| Magicsock.OrdinalRoundTrip | tailscale/wgengine/magicsock/discopingpurpose_string.go:14-16 | Every known purpose is recovered from its ordinal |
| Magicsock.StringIsTrimmedIdentifier | tailscale/wgengine/magicsock/discopingpurpose_string.go:4 | A known purpose renders as its constant's identifier with the trimmed "ping" prefix removed |
| Magicsock.NamedExactlyWhenKnown | tailscale/wgengine/magicsock/discopingpurpose_string.go:24-27 | A value renders as a name rather than a fallback exactly when it is a known purpose's ordinal, and the name is that purpose's trimmed identifier |
| Decimal.NatDigits | tailscale/wgengine/magicsock/discopingpurpose_string.go:25 | The digits of a natural number are a canonical numeral with no leading zero. They start with '0' only for zero |
| Decimal.FormatInt | tailscale/wgengine/magicsock/discopingpurpose_string.go:25 | The rendering is non-empty and starts with '-' exactly for negative values. The rest is a canonical numeral, and it is never "0" after a '-' |
| Decimal.NatDigitsValue | tailscale/wgengine/magicsock/discopingpurpose_string.go:25 | The digits of n denote n |
| Decimal.DigitsValueNatDigits | tailscale/wgengine/magicsock/discopingpurpose_string.go:25 | Every canonical numeral is the digit string of the value it denotes |
| Decimal.FormatParse | tailscale/wgengine/magicsock/discopingpurpose_string.go:25 | Parsing the rendering of any integer gives that integer back |
| Decimal.ParseFormat | tailscale/wgengine/magicsock/discopingpurpose_string.go:25 | Rendering a parsed numeral gives the numeral back, so the renderings are exactly the canonical numerals |
| Decimal.FormatIntInjective | tailscale/wgengine/magicsock/discopingpurpose_string.go:25 | Distinct integers have distinct renderings |

## Left out

- `strconv.FormatInt` is a library call, and its source is not part of this model. `Decimal.FormatInt` is a reference definition of base-10 rendering written here. Its behaviour for int64 values, the minimum included, follows the documented format: an optional '-', then the magnitude's digits with no leading zeros.
- The compile-time guard in `func _()` is not code that runs. It is modelled as a predicate over the three constants plus a lemma.
- The Go declaration of the purpose type and of the `ping*` constants is not part of this model. Their values come from the guard at lines 14-16.
- `tailscale/ipn/ipnlocal/c2n.go` is HTTP handling, process execution and file-system I/O. It has no purpose-naming logic and is not modelled.
- Go slices strings by byte offset, while the model slices sequences of characters. Every string involved is ASCII, so the two agree here.
- `_discoPingPurpose_index` is a package-level `var` (line 21) that nothing in the source writes to. The model treats it as a constant, so a write from elsewhere in the package would not be captured.
- The rest of the discovery engine (candidate store, ping scheduler, path state machine, UDP multiplexer) is not part of this model.
