# NimbusKit Basics: flag test, hex colour channels and release numbers

NimbusKit Basics is a single Objective-C header of macros and inline helpers for iOS apps.
Most of it is compiler annotations, UIKit queries, debug logging and libm forwarding. This
project models the three pieces of it that are integer logic and proves what they promise:

- `flags.dfy`, module `Flags`: `NI_IS_FLAG_SET(value, flag)`, the test that all bits of a
  possibly multi-bit flag are set on a mask. Masks are 64-bit words (`bv64`, NSUInteger on a
  64-bit target). The macro is proved to mean "every single bit of `flag` is a bit of
  `value`", and its behaviour on unions of flags is stated.
- `colors.dfy`, module `Colors`: the channel extraction of `NI_HEXCOLOR` / `NI_HEXACOLOR`
  (`>> 16 & 0xFF`, `>> 8 & 0xFF`, `& 0xFF`) on a 32-bit argument, with its inverse
  `0xRRGGBB` packing, and the channel/alpha arguments that `NI_RGBCOLOR` / `NI_RGBACOLOR`
  hand to the toolkit (`ColorArgs`; `NI_RGBACOLOR` is that datatype's constructor).
- `versions.dfy`, module `Versions`: the `MMmmPP` release encoding, the `NI_IOS_M_m` and
  `NIMBUSKIT_BASICS_M_m_p` constants, and the version check run at every inclusion of the
  header, over a small model of the preprocessor state (include guard, the
  `NIMBUSKIT_BASICS_VERSION` macro, `NI_SUPPRESS_VERSION_WARNINGS`).

Notes on the source:

- `NI_HEXCOLOR` and `NI_HEXACOLOR` (src/NimbusKitBasics.h:95, :105) call `RGBCOLOR` and
  `RGBACOLOR`, which this header never defines; it defines `NI_RGBCOLOR` and `NI_RGBACOLOR`
  (lines 76 and 86). The macros only work where some other header supplies the unprefixed
  names. The model binds them to `NI_RGBCOLOR` / `NI_RGBACOLOR` (`Colors.HexColor`,
  `Colors.HexaColor`), which take the same arguments.
- The `hex` argument is not parenthesised in `hex >> 16` and `hex >> 8`. The model decodes an
  already evaluated value (`Colors.DecodeHex`). What the expansion does to a compound
  argument is recorded under Findings.
- Bit-vector contracts: the recomposition in `DecodeHex` is stated in 32-bit arithmetic.
  `red * 0x10000 + green * 0x100 + blue` is at most `0xFFFFFF`, so it cannot wrap, and the
  equation is the integer one.

## Model

| member | source | states |
|---|---|---|
| `Flags.IsFlagSet` | src/NimbusKitBasics.h:63 | `NI_IS_FLAG_SET(value, flag)` is true exactly when no bit of `flag` lies outside `value` (`flag` and-ed with the complement of `value` is 0) |
| `Flags.IsFlagSetMeansEveryBit` | src/NimbusKitBasics.h:772-776 | `NI_IS_FLAG_SET(value, flag)` is true if and only if every single bit of `flag` is also set in `value` |
| `Flags.MissingBit` | src/NimbusKitBasics.h:63 | when the test is false, there is a single bit of `flag` that `value` lacks |
| `Flags.IsFlagSetOfUnion` | src/NimbusKitBasics.h:65-67 | the test on the union of `f1` and `f2` is true exactly when the tests on `f1` and on `f2` are both true |
| `Flags.PartialOverlapIsNotSet` | src/NimbusKitBasics.h:772-773 | if `f1` is fully set but `f2` is not, the test on their union is false |
| `Flags.FlagSetVersusAnyBit` | src/NimbusKitBasics.h:772-773 | for a non-empty flag the all-bits test implies the any-bit test `value & flag`; for a single-bit flag the two agree |
| `Flags.EmptyFlagAlwaysSet` | src/NimbusKitBasics.h:63 | the empty flag is set on every mask |
| `Flags.FlagExamples` | src/NimbusKitBasics.h:63 | 110 has 100; 010 lacks 100; 110 lacks 101 although `110 & 101` is non-zero |
| `Flags.AutoresizingExample` | src/NimbusKitBasics.h:65-67 | with UIKit's flexible width and height bits, the test says YES only if both are on the mask |
| `Colors.DecodeHex` | src/NimbusKitBasics.h:94-95 | the three channels are the base-256 digits of `hex mod 2^24`: `red*65536 + green*256 + blue == hex mod 2^24`, each in 0..255 |
| `Colors.EncodeHex` | src/NimbusKitBasics.h:796-797 | packing three channels as `0xRRGGBB` gives a value below 2^24 |
| `Colors.HexColor` | src/NimbusKitBasics.h:94-95 | `NI_HEXCOLOR(hex)` is opaque (alpha 1) and its channels repack to `hex mod 2^24` |
| `Colors.HexaColor` | src/NimbusKitBasics.h:104-105 | `NI_HEXACOLOR(hex, a)` keeps alpha `a` and its channels repack to `hex mod 2^24` |
| `Colors.HexColorOfPacked` | src/NimbusKitBasics.h:94-95 | `NI_HEXCOLOR` of a packed `0xRRGGBB` value equals `NI_RGBCOLOR` of its three channels |
| `Colors.DecodeEncodeHex` | src/NimbusKitBasics.h:95 | decoding a packed `0xRRGGBB` gives back the packed channels |
| `Colors.EncodeDecodeHex` | src/NimbusKitBasics.h:796-797 | for `hex < 2^24`, the decoded channels recompose to `hex` |
| `Colors.DecodeHexIgnoresHighBits` | src/NimbusKitBasics.h:104-105 | bits above bit 23 are discarded: `hex` and `hex mod 2^24` decode alike |
| `Colors.HexaColorAgreesWithHexColor` | src/NimbusKitBasics.h:104-105 | `NI_HEXACOLOR` extracts the same channels as `NI_HEXCOLOR` and passes alpha through unchanged |
| `Colors.HexColorExample` | src/NimbusKitBasics.h:97-98 | `NI_HEXCOLOR(0xFF00FF)` is `NI_RGBCOLOR(255, 0, 255)` |
| `Colors.SignedShiftRight` | src/NimbusKitBasics.h:95 | a sign-copying right shift agrees with the unsigned shift on the bits the unsigned shift keeps |
| `Colors.SignFillOfChannelShifts` | src/NimbusKitBasics.h:95 | in the shifts by 16 and by 8 the macro performs on a signed argument, every vacated high bit is a copy of the sign bit |
| `Colors.SignedArgumentDecodesLikeUnsigned` | src/NimbusKitBasics.h:95 | a negative signed argument yields the same red and green channels as its unsigned 32-bit pattern |
| `Colors.HexUnionChannelsAsWritten` | src/NimbusKitBasics.h:95 | the textual expansion of `NI_HEXCOLOR` applied to a bitwise-or expression of `a` and `b`; its blue channel matches the decoding of the or-ed value |
| `Colors.HexUnionMisdecoded` | src/NimbusKitBasics.h:95 | `NI_HEXCOLOR` of the expression `0xFF0000` or-ed with `0x0000FF` expands to channels (0, 0, 255), where the value decodes to (255, 0, 255) |
| `Versions.Decode` | src/NimbusKitBasics.h:218-260 | reading `MMmmPP` back gives a release whose minor and patch are below 100 |
| `Versions.EncodeDecode` | src/NimbusKitBasics.h:218-260 | every number is the `MMmmPP` encoding of the release it decodes to |
| `Versions.DecodeEncode` | src/NimbusKitBasics.h:218-260 | `Encode`, the `MMmmPP` encoding, is undone by `Decode` on every release with two-digit minor and patch |
| `Versions.EncodeOrder` | src/NimbusKitBasics.h:218-260 | on such releases, `Encode(a) < Encode(b)` exactly when `a` precedes `b` lexicographically |
| `Versions.EncodingNeedsTwoDigitFields` | src/NimbusKitBasics.h:218-260 | without the two-digit bound the encoding collides: 1.100.0 and 2.0.0 |
| `Versions.ReleaseTableIncreasing` | src/NimbusKitBasics.h:218-260 | a table of constants that encode releases listed in order is strictly increasing |
| `Versions.IosReleasesOrdered` | src/NimbusKitBasics.h:218-260 | each `NI_IOS_M_m` equals `M*10000 + m*100`, and the constants increase strictly from 2.0 to 7.0 |
| `Versions.BasicsReleasesOrdered` | src/NimbusKitBasics.h:686-692 | `NIMBUSKIT_BASICS_1_0_0` = 10000 and `NIMBUSKIT_BASICS_1_1_0` = 10100 follow `MMmmPP`, the first below the second |
| `Versions.IncludeBasics` | src/NimbusKitBasics.h:676-715 | one inclusion: the header is marked included; a first inclusion into a unit without a version defines it as `NIMBUSKIT_BASICS_1_1_0` (10100); once the guard is set, or when a version is already defined, the version is left as it was; the message is emitted exactly when not suppressed and the version is undefined or below 10100 |
| `Versions.WarnsExactlyForOlderRelease` | src/NimbusKitBasics.h:696-698 | for a version that encodes a release, the check fires exactly when warnings are not suppressed and that release precedes 1.1.0; an undefined version (0 in `#if`) fires exactly when not suppressed |
| `Versions.FirstInclusionIsQuiet` | src/NimbusKitBasics.h:678-680 | a first inclusion defines version 10100 and emits nothing; a second inclusion changes nothing |
| `Versions.IncludeBasicsIdempotent` | src/NimbusKitBasics.h:13-14 | including the header again leaves the macro state and the verdict unchanged |
| `Versions.OlderCopyFirstWarns` | src/NimbusKitBasics.h:698-711 | after a copy that left `NIMBUSKIT_BASICS_VERSION` at `NIMBUSKIT_BASICS_1_0_0`, this copy emits the message unless warnings are suppressed |
| `Versions.GuardWithoutVersionWarns` | src/NimbusKitBasics.h:678-698 | after a copy that set the include guard but left no version defined, the version stays undefined and the message is emitted unless suppressed |

## Left out

- `NIIsInDebugger` (src/NimbusKitBasics.h:123-143): a `sysctl` query of the process flags, which is operating-system I/O.
- `NIIsRunningTests` (src/NimbusKitBasics.h:145-149): reads an environment variable through Foundation string APIs.
- `NI_DASSERT`, `NI_DPRINT`, `NI_DCONDITIONLOG`, `NI_DPRINTMETHODNAME` (src/NimbusKitBasics.h:116-184): build-flag-gated logging and debugger traps, side effects with nothing to compute.
- `NIIsPad`, `NIIsPhone`, `NIScreenScale`, `NIIsRetina`, `NITintColorForViewWithFallback` (src/NimbusKitBasics.h:190-209): UIKit queries, including a floating-point scale comparison and a runtime selector check.
- `NIDeviceOSVersionIsAtLeast` and the `kCFCoreFoundationVersionNumber_*` constants (src/NimbusKitBasics.h:211-213, 262-316): a `double` comparison against a platform global.
- The `NICGFloat_*` wrappers and `NI_CGFLOAT_EPSILON` (src/NimbusKitBasics.h:326-674): floating-point forwarding to libm.
- The division of each channel by 255.0f and the `UIColor` object built by `NI_RGBCOLOR` / `NI_RGBACOLOR`: floating point and a toolkit call. The model stops at the integer channels and the alpha passed in; alpha is a `real` that is only passed through.
- `Colors.RgbColor`: channels are bytes, as documented; `NI_RGBCOLOR` itself accepts any number and does not check the range.
- `NI_DEPRECATED_METHOD`, `NI_DESIGNATED_INITIALIZER`, `NI_FIX_CATEGORY_BUG` (src/NimbusKitBasics.h:20-59): compile-time annotations with no run-time behaviour.
- The stringification macros and the text of the version message (src/NimbusKitBasics.h:700-711): preprocessor-only; the model records only whether the message is emitted.
- `Flags.IsFlagSetMeansEveryBit`: masks are fixed at 64 bits; the C usual arithmetic conversions between a `value` and a `flag` of different widths or signedness are not modelled.
- `Colors.SignedShiftRight`: its contract states agreement with the unsigned shift on the kept low bits for every shift amount; the sign fill of the vacated bits is proved only for the shifts by 16 and 8 that the macro performs (`Colors.SignFillOfChannelShifts`).
- `Colors.DecodeHex`: the argument is a 32-bit word; an argument of a wider type (a `long` literal) is not modelled, and for a signed argument only the shift's sign fill is (`Colors.SignedShiftRight`).
- `Versions.IncludeBasics`: a previously included copy is described only by the macros it left defined; its own code, and a copy that defines `NIMBUSKIT_BASICS_1_1_0` with a different value, are not modelled.

## Findings

| source | as written | input that shows it | evidently intended | confidence | as-written member | corrected member |
|---|---|---|---|---|---|---|
| src/NimbusKitBasics.h:95 | `hex` is not parenthesised in `hex >> 16` and `hex >> 8`, so when the argument is a bitwise-or expression of `a` and `b` the shifts bind to `b` alone; the blue channel `((hex) & 0xFF)` is parenthesised | `NI_HEXCOLOR` of `0xFF0000` or-ed with `0x0000FF` gives channels (0, 0, 255) | the channels of the value `0xFF00FF`, i.e. (255, 0, 255), as `(hex) >> 16` would give | high for the expansion, which follows C operator precedence; not executed | `Colors.HexUnionChannelsAsWritten`, shown by `Colors.HexUnionMisdecoded` | `Colors.DecodeHex`, with `Colors.EncodeDecodeHex` and `Colors.DecodeEncodeHex` |
