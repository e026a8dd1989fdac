# ColorBean core in Dafny

ColorBean is a desktop colour picker. Its engine, ColorPadCore, holds these parts:

- **Seven colour models**: RGB, CMYK, HSB, HSL, CIE L\*a\*b\*, YCrCb and grayscale. It also has CIE XYZ and the D65-clamped XYZ subclass.
- **Conversions** between the models (`DefaultModelConverters`).
- **A registry** of converters that walks the superclass chain (`ModelsManager`).
- **Grayscale algorithms**.
- **Bridges** that hold one colour in every model at once (`NormalConvertBridge`, `ConvertBridge`).
- **Colour-scheme formulas**: complementary, triadic and so on (`Formula`).
- **Numeric and text helpers** (`Basic`).

Around the engine sit three more parts:

- **FitToolkit.** An INI library: `Section`, `Ini`, the loader `FitIni` with its `LoadOption`s, and the converters of `fit.simplification.Convert`.
- **`toolkit.Common`.** The two helpers that turn the text of a channel field into a number.
- **`main.CommandLine`.** The classification and scan of command-line arguments.

This project models those parts and proves what they promise, and some things they do not promise but do. Modules follow the source:

| Source | Modules |
|---|---|
| Colour models | `RgbModel`, `CmykModel`, `HsbModel`, `HslModel`, `LabModel`, `YCrCbModel`, `GrayscaleModel`, `XyzModel` |
| Conversions | `Converters` |
| Grayscale algorithms | `GrayAlgorithms` |
| Registry | `Registry` |
| Bridges | `Bridges` |
| Scheme formulas | `Formula` |
| Helpers | `Basic` |
| INI library | `IniOptions`, `IniSection`, `IniDocument`, `FitIni`, `FitIniProperties` |
| Converters of `fit.simplification.Convert` | `Convert` |
| Field helpers | `Common` |
| Command line | `CommandLine` |

The modules `Wrappers`, `JavaNum` and `JavaText` model the Java semantics the code relies on:

- exceptions as `Result`;
- `int` and `long` wrap-around, `Math.round`, the `(int)` cast, truncating `/` and `%`, and `%` on doubles;
- `Integer.parseInt`, `Long.parseLong`, `Double.parseDouble`, `String.split`, `String.trim` and `equalsIgnoreCase`.

How the source maps to Dafny:

- **Values.** Java `double` is a `real`. A nullable string is an `Option<string>`. Every exception the code throws or lets through is an `Err` of the exception's kind.
- **Immutable models** are datatypes. Their factories (`from`, `fromString`, `fromHex`) return `Result`.
- **Objects whose fields change** are classes with `modifies` clauses: `Xyz` and its D65 subclass, `ModelsManager`, the bridges, `Section`, `Ini` and `LoadOption`. `Section` and `Ini` are specified by a value they stand for (`SectionValue`, `IniValue`). Their methods are proved against pure functions on that value.
- **Loops.** Where the source loops, the model loops too. This covers `fIntValue`, `extractFromString`, `padLeft`, `fromHexEnhanced`, `HSL_TO_RGB`, `clone`, `toList`, `clear`, `removeAllComments`, `buildIni`, `getValue` and the argument scan. Each loop is proved equal to a specification function.

Some behaviour of the source is surprising. The model keeps it as written and proves that it happens:

- `CMYK_TO_RGB` scales by 225 instead of 255, so white does not survive a round trip.
- `HSL_TO_RGB` never sets the blue channel.
- Black converts to CMYK (100, 100, 100, 100).
- `Lab.equals` compares b\* with the other value's lightness.
- The public `Cmyk` constructor checks nothing.
- `Section.remove` and `Section.rename` leave stale records, which `toList` prints as `key=null`.
- `CieXyzHelper.parseStringOfD65` dereferences null when the text does not hold three numbers.

## Model

| member | source | states |
|---|---|---|
| Basic.FIntValueOf | ColorPadCore/src/colorpad/core/Basic.java:21-30 | fails on the empty string with an index error, succeeds on every other string, and always yields a 32-bit int |
| Basic.FIntValue | ColorPadCore/src/colorpad/core/Basic.java:21-30 | the digit-accumulating loop computes exactly what `fIntValue` is specified to compute, wrap-around included |
| Basic.FIntValueOfDecimal | ColorPadCore/src/colorpad/core/Basic.java:21-30 | on digit text whose value fits an int, the result is that decimal value |
| Basic.FIntValueOfNegated | ColorPadCore/src/colorpad/core/Basic.java:21-30 | a leading minus sign negates the value of the digits |
| Basic.FIntValueOfExact | ColorPadCore/src/colorpad/core/Basic.java:21-30 | wrapping after every step, as the loop does, gives the 32-bit wrap of the exact signed value of the digits |
| Basic.FRound | ColorPadCore/src/colorpad/core/Basic.java:32-34 | the result is an int; inside the int range it is within one half of the argument, so it is the nearest integer |
| Basic.GetFixRange | ColorPadCore/src/colorpad/core/Basic.java:36-43 | the result is one of value, lower or upper; it lies in [lower, upper] when that range is not empty; a value already inside is kept |
| Basic.GetFixRangeReal | ColorPadCore/src/colorpad/core/Basic.java:45-52 | the same clamp properties on doubles |
| Basic.GetFixRangeIdempotent | ColorPadCore/src/colorpad/core/Basic.java:36-43 | clamping twice gives the same as clamping once |
| Basic.DecimalEqualsReflexiveSymmetric | ColorPadCore/src/colorpad/core/Basic.java:54-56 | the tolerance comparison is reflexive and symmetric |
| Basic.DecimalEqualsNotTransitive | ColorPadCore/src/colorpad/core/Basic.java:54-56 | the comparison is not transitive: 0 ≈ 6e-7 and 6e-7 ≈ 1.2e-6, but 0 is not ≈ 1.2e-6 |
| Basic.ParseAll | ColorPadCore/src/colorpad/core/Basic.java:64-72 | a successful parse has one number per piece |
| Basic.ParseAllPieces | ColorPadCore/src/colorpad/core/Basic.java:64-72 | parsing succeeds if and only if every piece parses, and then position k holds the value of piece k |
| Basic.ExtractFromString | ColorPadCore/src/colorpad/core/Basic.java:58-74 | the returned array holds exactly the numbers `Extract` specifies: none for null or empty text or any bad piece, else every piece's value |
| Basic.FromThree | ColorPadCore/src/colorpad/core/model/Hsb.java:105-116 | the shape the Hsb, Hsl and Lab `fromString` methods share: not exactly three extracted numbers gives IllegalArgumentException, otherwise the given `from` of those numbers in order |
| Basic.ParsePieces | ColorPadCore/src/colorpad/core/Basic.java:64-72 | the fill loop returns every parsed value in order, or the empty array once any piece fails |
| Basic.NoneExtends | ColorPadCore/src/colorpad/core/Basic.java:64-72 | once a prefix of the pieces fails to parse, the whole list fails |
| Basic.ExtractAsInt | ColorPadCore/src/colorpad/core/Basic.java:76-79 | one int per extracted number, each within one half of it when the number is in the int range |
| Basic.ParseAllIntTexts | ColorPadCore/src/colorpad/core/Basic.java:64-72 | every printed int parses back to its own value |
| Basic.ExtractFormatInts | ColorPadCore/src/colorpad/core/Basic.java:58-74 | printing ints comma-separated and extracting them gives the same numbers back |
| Basic.ExtractAsIntFormatInts | ColorPadCore/src/colorpad/core/Basic.java:76-79 | the round trip through text and rounding gives the original ints |
| Basic.ParseHex | ColorPadCore/src/colorpad/core/Basic.java:81-87 | succeeds exactly when `Integer.parseInt(s, 16)` does, with an int; otherwise IllegalArgumentException |
| Basic.ToLengthSixHex | ColorPadCore/src/colorpad/core/model/Rgb.java:92-94 | a 24-bit value prints as exactly six hexadecimal digits |
| Basic.ParseHexOfSixHex | ColorPadCore/src/colorpad/core/model/Rgb.java:92-94 | the six hex digits of a 24-bit value parse back to that value |
| Basic.PadLeft | ColorPadCore/src/colorpad/core/Basic.java:89-96 | the result has length max(length, |target|), ends with target, and every character before it is the fill character |
| RgbModel.From | ColorPadCore/src/colorpad/core/model/Rgb.java:138-141 | succeeds if and only if every channel is in 0..255, with those channels; otherwise ArgumentOutOfRangeException |
| RgbModel.FromInteger | ColorPadCore/src/colorpad/core/model/Rgb.java:65-69 | any int unpacks to a valid colour |
| RgbModel.ToInteger | ColorPadCore/src/colorpad/core/model/Rgb.java:124-126 | the packed value of a colour lies in 0..0xFFFFFF |
| RgbModel.FromIntegerToInteger | ColorPadCore/src/colorpad/core/model/Rgb.java:65-69 | unpacking a packed colour gives the colour back |
| RgbModel.ToIntegerFromInteger | ColorPadCore/src/colorpad/core/model/Rgb.java:124-126 | packing the unpacked channels keeps exactly the low 24 bits of the value |
| RgbModel.HashCode | ColorPadCore/src/colorpad/core/model/Rgb.java:105-107 | the hash is an int |
| RgbModel.EqualsHashCode | ColorPadCore/src/colorpad/core/model/Rgb.java:97-107 | `equals` is value equality, and on valid colours it holds exactly when the hashes are equal |
| RgbModel.FromString | ColorPadCore/src/colorpad/core/model/Rgb.java:152-164 | not exactly three numbers gives IllegalArgumentException; three numbers give `from` of the rounded values; a success is valid |
| RgbModel.FromStringToString | ColorPadCore/src/colorpad/core/model/Rgb.java:115-117 | the comma-separated text of a colour parses back to the colour |
| RgbModel.ToHex | ColorPadCore/src/colorpad/core/model/Rgb.java:92-94 | the hex text has six characters |
| RgbModel.DropHash | ColorPadCore/src/colorpad/core/model/Rgb.java:175-185 | removes one leading `#` and nothing else |
| RgbModel.FromParsedHex | ColorPadCore/src/colorpad/core/model/Rgb.java:175-185 | succeeds exactly when the text parses in base 16, unpacking the parsed value; else IllegalArgumentException |
| RgbModel.FromHex | ColorPadCore/src/colorpad/core/model/Rgb.java:175-185 | only IllegalArgumentException can occur; a success came from non-empty text with six characters after the optional `#` |
| RgbModel.FromHexToHex | ColorPadCore/src/colorpad/core/model/Rgb.java:175-185 | the hex text of a colour parses back to the colour, with or without `#` |
| RgbModel.FromHexSigned | ColorPadCore/src/colorpad/core/model/Rgb.java:175-185 | the parser accepts a sign: `-00001` is white |
| RgbModel.Doubled | ColorPadCore/src/colorpad/core/model/Rgb.java:208-213 | every character of the input appears twice in a row |
| RgbModel.FromHexEnhancedOf | ColorPadCore/src/colorpad/core/model/Rgb.java:196-216 | only IllegalArgumentException can occur; a success came from non-empty text of at most six characters after `#` |
| RgbModel.FromHexEnhanced | ColorPadCore/src/colorpad/core/model/Rgb.java:196-216 | the method with its doubling loop returns what `FromHexEnhancedOf` specifies |
| RgbModel.ShortFormChannels | ColorPadCore/src/colorpad/core/model/Rgb.java:196-216 | the short form `#xyz` gives channels 17·x, 17·y and 17·z, as CSS does |
| RgbModel.FromHexEnhancedPadded | ColorPadCore/src/colorpad/core/model/Rgb.java:196-216 | apart from the three-character form, text of up to six digits means the same as that text padded on the left with zeros |
| CmykModel.New | ColorPadCore/src/colorpad/core/model/Cmyk.java:57-62 | the public constructor stores its arguments as given |
| CmykModel.NewUnchecked | ColorPadCore/src/colorpad/core/model/Cmyk.java:57-62 | an example: the constructor admits (-1, 0, 0, 200), which `from` rejects |
| CmykModel.From | ColorPadCore/src/colorpad/core/model/Cmyk.java:103-106 | succeeds if and only if all four components are in 0..100; otherwise ArgumentOutOfRangeException |
| CmykModel.EqualsIsEquality | ColorPadCore/src/colorpad/core/model/Cmyk.java:69-74 | `equals` holds exactly for equal values |
| CmykModel.FromString | ColorPadCore/src/colorpad/core/model/Cmyk.java:117-122 | not exactly four numbers gives IllegalArgumentException, otherwise `from` of the rounded values |
| CmykModel.FromStringToString | ColorPadCore/src/colorpad/core/model/Cmyk.java:87-89 | the text of a valid value parses back to it |
| CmykModel.HashCode | ColorPadCore/src/colorpad/core/model/Cmyk.java:77-79 | the hash of a valid value is a non-negative int |
| CmykModel.HashCodeInjective | ColorPadCore/src/colorpad/core/model/Cmyk.java:77-79 | two valid values hash alike exactly when they are `equals` |
| HsbModel.From | ColorPadCore/src/colorpad/core/model/Hsb.java:91-94 | succeeds if and only if hue is in [0, 360] and saturation and brightness are in [0, 100]; otherwise ArgumentOutOfRangeException |
| HsbModel.FromString | ColorPadCore/src/colorpad/core/model/Hsb.java:105-116 | not exactly three numbers gives IllegalArgumentException, otherwise `from` of the unrounded numbers; a success is valid |
| HsbModel.FromStringOfInts | ColorPadCore/src/colorpad/core/model/Hsb.java:105-116 | whole-number components written comma-separated parse back to the colour |
| HsbModel.EqualsTolerance | ColorPadCore/src/colorpad/core/model/Hsb.java:54-64 | `equals` is reflexive and symmetric, and holds exactly when every component is within `PRECISION` |
| HsbModel.EqualsNotTransitive | ColorPadCore/src/colorpad/core/model/Hsb.java:59-64 | `equals` is not transitive |
| HslModel.From | ColorPadCore/src/colorpad/core/model/Hsl.java:90-93 | succeeds if and only if the components are in range; otherwise ArgumentOutOfRangeException |
| HslModel.FromString | ColorPadCore/src/colorpad/core/model/Hsl.java:104-115 | not exactly three numbers gives IllegalArgumentException, otherwise `from` of the numbers; a success is valid |
| HslModel.FromStringOfInts | ColorPadCore/src/colorpad/core/model/Hsl.java:104-115 | whole-number components written comma-separated parse back to the colour |
| HslModel.EqualsTolerance | ColorPadCore/src/colorpad/core/model/Hsl.java:52-72 | `equals` is reflexive and symmetric, and holds exactly when every component is within `PRECISION` |
| HslModel.EqualsNotTransitive | ColorPadCore/src/colorpad/core/model/Hsl.java:67-72 | `equals` is not transitive |
| LabModel.From | ColorPadCore/src/colorpad/core/model/Lab.java:89-92 | succeeds if and only if the components are in range; otherwise ArgumentOutOfRangeException |
| LabModel.FromString | ColorPadCore/src/colorpad/core/model/Lab.java:103-112 | not exactly three numbers gives IllegalArgumentException, otherwise `from` of the numbers; a success is valid |
| LabModel.FromStringOfInts | ColorPadCore/src/colorpad/core/model/Lab.java:103-112 | whole-number components written comma-separated parse back to the colour |
| LabModel.EqualsComparesWrongField | ColorPadCore/src/colorpad/core/model/Lab.java:66-71 | `equals` tests l\* and a\*, then this b\* against the other's lightness; so a value equals a copy of itself only when its b\* is close to its l\* |
| LabModel.EqualsCounterexample | ColorPadCore/src/colorpad/core/model/Lab.java:66-71 | two copies of (50, 0, 0) are not equal, while (50, 0, 50) equals (50, 0, 0) |
| LabModel.HashCode | ColorPadCore/src/colorpad/core/model/Lab.java:74-76 | the hash of a valid value lies in 0..0xFFFFFF |
| LabModel.HashCodeBytes | ColorPadCore/src/colorpad/core/model/Lab.java:74-76 | the hash's three bytes are the rounded l\*, a\*+128 and b\*+128 |
| YCrCbModel.From | ColorPadCore/src/colorpad/core/model/YCrCb.java:90-93 | succeeds if and only if every component is in 0..255; otherwise ArgumentOutOfRangeException |
| YCrCbModel.HashCode | ColorPadCore/src/colorpad/core/model/YCrCb.java:66-68 | the hash of a valid value lies in 0..0xFFFFFF |
| YCrCbModel.EqualsHashCode | ColorPadCore/src/colorpad/core/model/YCrCb.java:58-68 | `equals` is value equality, and on valid values it holds exactly when the hashes are equal |
| YCrCbModel.FromString | ColorPadCore/src/colorpad/core/model/YCrCb.java:104-109 | not exactly three numbers gives IllegalArgumentException, otherwise `from` of the rounded values |
| YCrCbModel.FromStringToString | ColorPadCore/src/colorpad/core/model/YCrCb.java:76-78 | the text of a valid value parses back to it |
| GrayscaleModel.From | ColorPadCore/src/colorpad/core/model/Grayscale.java:61-64 | succeeds if and only if the level is in 0..255; otherwise ArgumentOutOfRangeException |
| GrayscaleModel.ToRgb | ColorPadCore/src/colorpad/core/model/Grayscale.java:26-28 | a valid level gives the grey with three equal channels; only an invalid level fails |
| GrayscaleModel.EqualsHashCode | ColorPadCore/src/colorpad/core/model/Grayscale.java:31-41 | `equals` is value equality and agrees with equality of hashes |
| GrayscaleModel.ToString | ColorPadCore/src/colorpad/core/model/Grayscale.java:49-51 | the text is the level alone; the separator is not used |
| GrayscaleModel.FromString | ColorPadCore/src/colorpad/core/model/Grayscale.java:75-79 | not exactly one number gives IllegalArgumentException, otherwise `from` of the rounded number |
| GrayscaleModel.FromStringToString | ColorPadCore/src/colorpad/core/model/Grayscale.java:49-79 | the printed level parses back to the value, whatever separator was asked for |
| XyzModel.Xyz.SetX | ColorPadCore/src/colorpad/core/model/Xyz.java:26-28 | stores the value through the replace hook (clamped on D65), changes no other component and keeps the D65 invariant |
| XyzModel.Xyz.SetY | ColorPadCore/src/colorpad/core/model/Xyz.java:40-42 | the same for y |
| XyzModel.Xyz.SetZ | ColorPadCore/src/colorpad/core/model/Xyz.java:54-56 | the same for z |
| XyzModel.Xyz.Plain | ColorPadCore/src/colorpad/core/model/Xyz.java:67-71 | a plain Xyz stores its arguments as given |
| XyzModel.Xyz.D65 | ColorPadCore/src/colorpad/core/model/CieXyzD65.java:18-20 | a D65 object stores the arguments clamped into the D65 box, and unchanged when they are already inside |
| XyzModel.FromString | ColorPadCore/src/colorpad/core/model/Xyz.java:107-114 | null exactly when the text does not hold three numbers; otherwise a new plain Xyz of those numbers |
| XyzModel.FromStringD65 | ColorPadCore/src/colorpad/core/model/CieXyzD65.java:30-46 | null exactly when the text does not hold three numbers inside the D65 box, which it rejects rather than clamps; otherwise a new D65 object of the numbers |
| XyzModel.D65OfValues | ColorPadCore/src/colorpad/core/model/CieXyzD65.java:32-45 | null exactly when the array does not hold three numbers inside the D65 box; otherwise a new D65 object holding them unclamped |
| XyzModel.ParseStringOfD65 | ColorPadCore/src/colorpad/core/model/CieXyzHelper.java:39-43 | wrong count gives NullPointerException; three numbers outside the box give ArgumentOutOfRangeException; otherwise a plain Xyz of the numbers |
| XyzModel.HooksClampIntoBox | ColorPadCore/src/colorpad/core/model/CieXyzD65.java:49-61 | the D65 hooks land in the box and keep values already there; the plain hooks keep every value |
| GrayAlgorithms.ComponentCalc | ColorPadCore/src/colorpad/core/algorithm/grayscale/GrayComponentAlgorithm.java:8-10 | the level is an int for any input |
| GrayAlgorithms.AverageCalc | ColorPadCore/src/colorpad/core/algorithm/grayscale/GrayAverageAlgorithm.java:8-10 | the level is an int for any input |
| GrayAlgorithms.ImplementationCalc | ColorPadCore/src/colorpad/core/algorithm/grayscale/IGrayscaleAlgorithm.java:17-27 | the default `calc(Rgb)` forwards the channels to `calc(r, g, b)`: a shipped implementation gives a level in 0..255 on a valid colour, a caller-supplied one returns its own `calc` of the channels |
| GrayAlgorithms.SpaceComponentConvert | ColorPadCore/src/colorpad/core/converter/GraySpaceComponentAlgorithm.java:16-18 | the converter is `Grayscale.from` of the weighted level |
| GrayAlgorithms.AverageConvert | ColorPadCore/src/colorpad/core/converter/GrayAverageAlgorithm.java:16-18 | the converter is `Grayscale.from` of the mean level |
| GrayAlgorithms.ComponentCalcRange | ColorPadCore/src/colorpad/core/algorithm/grayscale/GrayComponentAlgorithm.java:8-10 | for valid channels the level is in 0..255 and is the nearest integer to (299r+587g+114b)/1000 |
| GrayAlgorithms.ComponentCalcGrey | ColorPadCore/src/colorpad/core/algorithm/grayscale/GrayComponentAlgorithm.java:8-10 | a grey keeps its level |
| GrayAlgorithms.ComponentCalcMonotone | ColorPadCore/src/colorpad/core/algorithm/grayscale/GrayComponentAlgorithm.java:8-10 | raising any channel never lowers the level |
| GrayAlgorithms.AverageCalcRange | ColorPadCore/src/colorpad/core/algorithm/grayscale/GrayAverageAlgorithm.java:8-10 | for valid channels the level is in 0..255 and is the nearest integer to (r+g+b)/3 |
| GrayAlgorithms.AverageCalcGrey | ColorPadCore/src/colorpad/core/algorithm/grayscale/GrayAverageAlgorithm.java:8-10 | a grey keeps its level |
| GrayAlgorithms.AverageCalcSymmetric | ColorPadCore/src/colorpad/core/algorithm/grayscale/GrayAverageAlgorithm.java:8-10 | the mean does not depend on the order of the channels |
| GrayAlgorithms.ConvertersTotal | ColorPadCore/src/colorpad/core/converter/GraySpaceComponentAlgorithm.java:11-18 | neither converter throws on a valid Rgb; each returns the valid level of its algorithm |
| GrayAlgorithms.ConvertersGrey | ColorPadCore/src/colorpad/core/converter/GraySpaceComponentAlgorithm.java:11-18 | both converters map a grey Rgb to its own level |
| GrayAlgorithms.GreyRoundTrip | ColorPadCore/src/colorpad/core/model/Grayscale.java:26-28 | converting a grey Rgb to Grayscale and back gives the same Rgb |
| Converters.RgbToYCrCbTotal | ColorPadCore/src/colorpad/core/converter/DefaultModelConverters.java:199-205 | never throws on a valid Rgb; the luma is the rounded weighted mean of the channels |
| Converters.RgbToYCrCbGrey | ColorPadCore/src/colorpad/core/converter/DefaultModelConverters.java:199-205 | a grey keeps its level as luma and has neutral chroma 128 |
| Converters.RgbToYCrCbGreen | ColorPadCore/src/colorpad/core/converter/DefaultModelConverters.java:199-205 | pure green shows truncating division: Cr is 22 where flooring gives 21, and Cb is 45 rather than 44 |
| Converters.YCrCbToRgb | ColorPadCore/src/colorpad/core/converter/DefaultModelConverters.java:207-215 | every YCrCb value converts to a valid Rgb |
| Converters.YCrCbGreyRoundTrip | ColorPadCore/src/colorpad/core/converter/DefaultModelConverters.java:199-215 | neutral chroma converts back to the grey of the luma, so greys survive the round trip |
| Converters.PercentInRange | ColorPadCore/src/colorpad/core/converter/DefaultModelConverters.java:176-180 | a channel in percent is in 0..100, exact at both ends |
| Converters.ShareInRange | ColorPadCore/src/colorpad/core/converter/DefaultModelConverters.java:181-186 | the share of what the key leaves is a percentage, 0 for the component equal to the key |
| Converters.RgbToCmykBlack | ColorPadCore/src/colorpad/core/converter/DefaultModelConverters.java:168-188 | black converts to (100, 100, 100, 100) |
| Converters.RgbToCmykWhite | ColorPadCore/src/colorpad/core/converter/DefaultModelConverters.java:168-188 | white converts to (0, 0, 0, 0) |
| Converters.RgbToCmykTotal | ColorPadCore/src/colorpad/core/converter/DefaultModelConverters.java:168-188 | never throws on a valid Rgb; any colour but black has one of c, m, y equal to 0 |
| Converters.CmykChannelRange | ColorPadCore/src/colorpad/core/converter/DefaultModelConverters.java:190-196 | on percentages a channel lies in 0..225: 0 at full key, 225 with no ink |
| Converters.CmykToRgbTotal | ColorPadCore/src/colorpad/core/converter/DefaultModelConverters.java:190-196 | every valid CMYK converts; no channel exceeds 225, so white is unreachable |
| Converters.CmykWhiteRoundTrip | ColorPadCore/src/colorpad/core/converter/DefaultModelConverters.java:168-196 | white does not survive RGB → CMYK → RGB |
| Converters.CmykUncheckedOutOfRange | ColorPadCore/src/colorpad/core/converter/DefaultModelConverters.java:190-196 | a value from the unchecked constructor can make the conversion throw |
| Converters.HsbToRgbTotal | ColorPadCore/src/colorpad/core/converter/DefaultModelConverters.java:40-91 | every valid HSB converts without error |
| Converters.HueToRgbTotal | ColorPadCore/src/colorpad/core/converter/DefaultModelConverters.java:46-89 | a reduced hue with unit saturation and brightness picks channels in 0..255 in every sector |
| Converters.SectorToRgbTotal | ColorPadCore/src/colorpad/core/converter/DefaultModelConverters.java:51-89 | unit saturation, brightness and fraction give channels in 0..255 |
| Converters.HueRange | ColorPadCore/src/colorpad/core/converter/DefaultModelConverters.java:24-35 | the computed hue lies in [0, 360) |
| Converters.RgbToHsbTotal | ColorPadCore/src/colorpad/core/converter/DefaultModelConverters.java:17-38 | never throws on a valid Rgb: brightness is the largest channel in percent, saturation the spread over it, hue 0 exactly for greys |
| Converters.HueOfSector | ColorPadCore/src/colorpad/core/converter/DefaultModelConverters.java:24-35 | the hue is 60° per sector plus 60 times the offset over the spread |
| Converters.HsbOfRgb | ColorPadCore/src/colorpad/core/converter/DefaultModelConverters.java:17-38 | what RGB_TO_HSB produces, in terms of the sector and offset of the hue |
| Converters.HsbOfRgbSector | ColorPadCore/src/colorpad/core/converter/DefaultModelConverters.java:17-38 | the hue lies in a sector at a fraction, and that sector's channels for the saturation and brightness are the colour |
| Converters.HsbRoundTrip | ColorPadCore/src/colorpad/core/converter/DefaultModelConverters.java:17-91 | over exact reals, RGB → HSB → RGB gives the colour back |
| Converters.RgbToHslTotal | ColorPadCore/src/colorpad/core/converter/DefaultModelConverters.java:94-121 | never throws on a valid Rgb: the hue is the HSB hue, saturation 0 for greys, lightness the mean of the extreme channels |
| Converters.HslHueIsHsbHue | ColorPadCore/src/colorpad/core/converter/DefaultModelConverters.java:107-118 | HSB and HSL agree on the hue of every colour |
| Converters.HslChannelIs | ColorPadCore/src/colorpad/core/converter/DefaultModelConverters.java:151-159 | the branch taken for an adjusted hue computes the channel fraction the specification gives |
| Converters.HslByteOf | ColorPadCore/src/colorpad/core/converter/DefaultModelConverters.java:144-160 | one pass of the loop sets the channel byte the specification gives |
| Converters.HslToRgb | ColorPadCore/src/colorpad/core/converter/DefaultModelConverters.java:123-164 | the method over its three arrays returns what `HslToRgbOf` specifies |
| Converters.FillChannels | ColorPadCore/src/colorpad/core/converter/DefaultModelConverters.java:141-160 | the loop stops one short, so it adjusts and sets red and green only and leaves blue 0 |
| Converters.HslPQRange | ColorPadCore/src/colorpad/core/converter/DefaultModelConverters.java:134-140 | for percentages, p and q are fractions with p ≤ q |
| Converters.HslChannelRange | ColorPadCore/src/colorpad/core/converter/DefaultModelConverters.java:151-159 | the picked fraction lies between p and q for every non-negative adjusted hue |
| Converters.HslByteRange | ColorPadCore/src/colorpad/core/converter/DefaultModelConverters.java:144-160 | a channel set from a non-negative adjusted hue is in 0..255 |
| Converters.HslToRgbTotal | ColorPadCore/src/colorpad/core/converter/DefaultModelConverters.java:123-164 | every valid HSL converts; blue is always 0; a grey gets red and green equal to the rounded lightness |
| Converters.HslLosesBlue | ColorPadCore/src/colorpad/core/converter/DefaultModelConverters.java:94-164 | pure blue goes to HSL and back to black |
| Converters.HslKeepsRed | ColorPadCore/src/colorpad/core/converter/DefaultModelConverters.java:94-164 | pure red survives the trip to HSL and back |
| Converters.HsbGreyEqualChannels | ColorPadCore/src/colorpad/core/converter/DefaultModelConverters.java:40-91 | with zero saturation every hue converts to a grey: all three channels are the rounded brightness scaled to 0..255 |
| Registry.Superclass | ColorPadCore/src/colorpad/core/ModelsManager.java:87-90 | CieXyzD65 extends Xyz; every other model extends Object; Object has no superclass |
| Registry.ChainEnds | ColorPadCore/src/colorpad/core/ModelsManager.java:87-90 | the superclass walk from every class starts at that class and ends at Object |
| Registry.KindOf | ColorPadCore/src/colorpad/core/ModelsManager.java:85 | the runtime class of an Xyz object follows its D65 flag |
| Registry.OfRgb | ColorPadCore/src/colorpad/core/model/Rgb.java:138-141 | a converter's Rgb result is valid and has class Rgb |
| Registry.OfCmyk | ColorPadCore/src/colorpad/core/model/Cmyk.java:103-106 | a converter's Cmyk result is valid and has class Cmyk |
| Registry.Apply | ColorPadCore/src/colorpad/core/ModelsManager.java:94 | a converter applied to an object of another class fails with ClassCastException |
| Registry.FindFirstHit | ColorPadCore/src/colorpad/core/ModelsManager.java:86-91 | the lookup returns the entry of the first class on the chain that has one, and nothing exactly when none does |
| Registry.FindMiss | ColorPadCore/src/colorpad/core/ModelsManager.java:86-91 | the lookup finds nothing exactly when no class on the chain has an entry |
| Registry.FindHit | ColorPadCore/src/colorpad/core/ModelsManager.java:86-91 | no class before the one found has an entry |
| Registry.D65FallsBack | ColorPadCore/src/colorpad/core/ModelsManager.java:86-91 | a CieXyzD65 without its own converter uses Xyz's, then Object's |
| Registry.ConvertVia | ColorPadCore/src/colorpad/core/ModelsManager.java:111-120 | a missing converter is IllegalArgumentException; otherwise the converter is applied |
| Registry.ConvertOfExact | ColorPadCore/src/colorpad/core/ModelsManager.java:82-119 | when the runtime class has its own entry, both overloads of `convert` agree |
| Registry.ConvertOfMissing | ColorPadCore/src/colorpad/core/ModelsManager.java:91-93 | `convert` fails with IllegalArgumentException exactly when no class on the chain has a converter |
| Registry.ModelsManager.constructor | ColorPadCore/src/colorpad/core/ModelsManager.java:18-20 | the slot starts as the shipped GrayComponentAlgorithm and the table holds the registered defaults |
| Registry.ModelsManager.GetGrayscaleAlgorithm | ColorPadCore/src/colorpad/core/ModelsManager.java:27-29 | returns whatever the slot holds: the implementation registered last, which may be null or one a caller supplied |
| Registry.ModelsManager.RegisterGrayscaleAlgorithm | ColorPadCore/src/colorpad/core/ModelsManager.java:36-38 | replaces the slot with any implementation or with null, unchecked, and changes nothing else |
| Registry.ModelsManager.IsConvertable | ColorPadCore/src/colorpad/core/ModelsManager.java:68-70 | true exactly when both classes are non-null and a converter is registered for exactly that pair |
| Registry.IsConvertableIgnoresWalk | ColorPadCore/src/colorpad/core/ModelsManager.java:68-95 | with only Xyz to Rgb registered, `isConvertable(CieXyzD65, Rgb)` is false although `convert` of a CieXyzD65 to Rgb succeeds through the superclass |
| Registry.ModelsManager.Register | ColorPadCore/src/colorpad/core/ModelsManager.java:49-58 | a null argument throws and leaves the table alone; otherwise this pair's converter is replaced and no other entry changes |
| Registry.ModelsManager.GetConverter | ColorPadCore/src/colorpad/core/ModelsManager.java:123-131 | the entry for exactly this (source, target) pair |
| Registry.ModelsManager.Convert | ColorPadCore/src/colorpad/core/ModelsManager.java:82-95 | null throws NullPointerException; otherwise the result of the superclass walk; nothing changes |
| Registry.ModelsManager.ConvertAs | ColorPadCore/src/colorpad/core/ModelsManager.java:111-119 | null throws; otherwise the converter for exactly the given class, with no walk |
| Registry.RegisterThenConvert | ColorPadCore/src/colorpad/core/ModelsManager.java:49-119 | after `register(s, t, c)` both overloads use c from an s object to t, and every other pair keeps its converter |
| Bridges.AsRgb | ColorPadCore/src/colorpad/extend/NormalConvertBridge.java:123-126 | storing a convert result in an Rgb field succeeds only for an Rgb; anything else is ClassCastException |
| Bridges.AsXyz | ColorPadCore/src/colorpad/extend/NormalConvertBridge.java:75-82 | an Xyz field also accepts a CieXyzD65 |
| Bridges.ConvertFrom | ColorPadCore/src/colorpad/core/ModelsManager.java:82-95 | a null source throws NullPointerException; otherwise the registry's conversion |
| Bridges.FillHsb | ColorPadCore/src/colorpad/extend/NormalConvertBridge.java:76 | a set field is kept; an unset one becomes the conversion of rgb; no other field changes |
| Bridges.FillHsl | ColorPadCore/src/colorpad/extend/NormalConvertBridge.java:77 | the same for hsl |
| Bridges.FillCmyk | ColorPadCore/src/colorpad/extend/NormalConvertBridge.java:78 | the same for cmyk |
| Bridges.FillYCrCb | ColorPadCore/src/colorpad/extend/NormalConvertBridge.java:79 | the same for yCrCb |
| Bridges.FillXyz | ColorPadCore/src/colorpad/extend/NormalConvertBridge.java:80 | the same for xyz |
| Bridges.FillLab | ColorPadCore/src/colorpad/extend/NormalConvertBridge.java:81 | an unset lab becomes the conversion of xyz, not of rgb |
| Bridges.InitOf | ColorPadCore/src/colorpad/extend/NormalConvertBridge.java:75-82 | a success leaves every field set and keeps every field already set |
| Bridges.SetRgbFromOf | ColorPadCore/src/colorpad/extend/NormalConvertBridge.java:123-126 | rgb is the conversion of the source and grayscale that of the rgb; no other field changes |
| Bridges.CreateOf | ColorPadCore/src/colorpad/extend/NormalConvertBridge.java:25-73 | a null model is NullPointerException; a success holds the model in its own field |
| Bridges.CreateFillsAll | ColorPadCore/src/colorpad/extend/NormalConvertBridge.java:25-82 | a constructed bridge has every field set |
| Bridges.CreateConverts | ColorPadCore/src/colorpad/extend/NormalConvertBridge.java:32-65 | for every model but Rgb and Lab, rgb is the conversion of the model; for every model, grayscale is the conversion of rgb |
| Bridges.CreateFromLab | ColorPadCore/src/colorpad/extend/NormalConvertBridge.java:67-73 | from a Lab, xyz is the conversion of the Lab and rgb the conversion of that xyz |
| Bridges.CreateFromRgbWithDefaults | ColorPadCore/src/colorpad/extend/NormalConvertBridge.java:25-30 | with the default converters, a bridge built from an Rgb holds exactly what DefaultModelConverters computes |
| Bridges.AppliedHsb | ColorPadCore/src/colorpad/core/converter/DefaultModelConverters.java:17-38 | a successful default conversion to HSB returns what the converter computes |
| Bridges.DefaultLookup | ColorPadCore/src/colorpad/core/ModelsManager.java:82-95 | an Rgb object finds the converter registered for Rgb itself |
| Bridges.FromRgbOf | ColorPadCore/src/colorpad/extend/NormalConvertBridge.java:119-121 | out-of-range channels throw before anything is converted |
| Bridges.NormalConvertBridge.Holding | ColorPadCore/src/colorpad/extend/NormalConvertBridge.java:25-73 | the model sits in its own field and every other field is null |
| Bridges.NormalConvertBridge.SetRgbFrom | ColorPadCore/src/colorpad/extend/NormalConvertBridge.java:123-126 | on success the fields are those `SetRgbFromOf` gives |
| Bridges.NormalConvertBridge.FillHsbField | ColorPadCore/src/colorpad/extend/NormalConvertBridge.java:76 | the fields become those `FillHsb` gives |
| Bridges.NormalConvertBridge.FillHslField | ColorPadCore/src/colorpad/extend/NormalConvertBridge.java:77 | the fields become those `FillHsl` gives |
| Bridges.NormalConvertBridge.FillCmykField | ColorPadCore/src/colorpad/extend/NormalConvertBridge.java:78 | the fields become those `FillCmyk` gives |
| Bridges.NormalConvertBridge.FillYCrCbField | ColorPadCore/src/colorpad/extend/NormalConvertBridge.java:79 | the fields become those `FillYCrCb` gives |
| Bridges.NormalConvertBridge.FillXyzField | ColorPadCore/src/colorpad/extend/NormalConvertBridge.java:80 | the fields become those `FillXyz` gives |
| Bridges.NormalConvertBridge.FillLabField | ColorPadCore/src/colorpad/extend/NormalConvertBridge.java:81 | the fields become those `FillLab` gives |
| Bridges.NormalConvertBridge.InitConvertPossibleField | ColorPadCore/src/colorpad/extend/NormalConvertBridge.java:75-82 | on success the fields are those `InitOf` gives |
| Bridges.Create | ColorPadCore/src/colorpad/extend/NormalConvertBridge.java:25-73 | every constructor fails exactly as `CreateOf` does, and otherwise builds a new bridge with its fields |
| Bridges.ConvertBridge.constructor | ColorPadCore/src/colorpad/extend/ConvertBridge.java:21-22 | every field starts null |
| Bridges.ConvertBridge.ToHex | ColorPadCore/src/colorpad/extend/ConvertBridge.java:24-27 | NullPointerException while rgb is unset; otherwise six upper-case hex digits |
| Bridges.ConvertBridge.GetGray | ColorPadCore/src/colorpad/extend/ConvertBridge.java:29-31 | NullPointerException exactly when the slot is null or rgb is unset; otherwise the slot's implementation at call time applied to rgb: the shipped formulas give their level in 0..255, a caller-supplied one its own `calc` |
| Bridges.ConvertBridge.SetRgbFrom | ColorPadCore/src/colorpad/extend/ConvertBridge.java:33-35 | rgb becomes the conversion of the source; a failure leaves every field as it was |
| Formula.MonochromaticOf | ColorPadCore/src/colorpad/core/Formula.java:19-21 | the scheme is the hue alone |
| Formula.ComplementaryOf | ColorPadCore/src/colorpad/core/Formula.java:29-31 | two hues, the second the first turned half a circle |
| Formula.SplitComplementaryOf | ColorPadCore/src/colorpad/core/Formula.java:40-42 | three hues, the side hues `angle` away from the opposite |
| Formula.AnalogousOf | ColorPadCore/src/colorpad/core/Formula.java:61-63 | three hues, the side hues `angle` away from the hue |
| Formula.TriadicOf | ColorPadCore/src/colorpad/core/Formula.java:81-83 | three hues a third of a turn apart |
| Formula.TetradicOf | ColorPadCore/src/colorpad/core/Formula.java:92-94 | four hues: the hue, its turn by `angle`, and the opposites of both |
| Formula.AngleOf | ColorPadCore/src/colorpad/core/Formula.java:114-142 | the default angle when none is given, otherwise the given one clamped into range |
| Formula.GetFormula | ColorPadCore/src/colorpad/core/Formula.java:114-142 | a null type is NullPointerException; otherwise the scheme of that type |
| Formula.TurnRange | ColorPadCore/src/colorpad/core/Formula.java:29-31 | a turn by a non-negative amount lands in [0, 360) |
| Formula.GetFormulaRange | ColorPadCore/src/colorpad/core/Formula.java:114-142 | for a hue in [0, 360] every scheme has its size, starts with the hue itself, and every later hue lies in [0, 360) |
| Formula.ComplementInvolutive | ColorPadCore/src/colorpad/core/Formula.java:29-31 | the complement of the complement is the hue again |
| Formula.SplitComplementarySymmetric | ColorPadCore/src/colorpad/core/Formula.java:40-42 | the two side hues are symmetric about the complement, modulo a turn |
| Formula.HsbOfHues | ColorPadCore/src/colorpad/core/Formula.java:152-155 | one Hsb per hue, in order, or the first exception |
| Formula.GetFormulaHsb | ColorPadCore/src/colorpad/core/Formula.java:152-155 | a null Hsb is NullPointerException; otherwise one Hsb per computed hue with the input's saturation and brightness |
| Formula.GetFormulaHsbTotal | ColorPadCore/src/colorpad/core/Formula.java:152-155 | for a valid Hsb this overload never throws, and each result differs from the input only in its hue |
| IniOptions.LoadOption.constructor | FitToolkit/src/fit/ini/LoadOption.java:33-38 | defaults: errors not ignored, comments kept, prefix `;`, no unknown-line option, keys and values trimmed |
| IniOptions.LoadOption.SetIgnoreFileIoError | FitToolkit/src/fit/ini/LoadOption.java:49-52 | sets that option alone and returns the same object |
| IniOptions.LoadOption.SetDropComment | FitToolkit/src/fit/ini/LoadOption.java:63-66 | sets that option alone and returns the same object |
| IniOptions.LoadOption.SetCommentPrefix | FitToolkit/src/fit/ini/LoadOption.java:77-80 | sets that option alone (null included) and returns the same object |
| IniOptions.LoadOption.SetUnknownLineOption | FitToolkit/src/fit/ini/LoadOption.java:91-94 | sets that option alone and returns the same object |
| IniOptions.LoadOption.SetTrimKey | FitToolkit/src/fit/ini/LoadOption.java:105-108 | sets that option alone and returns the same object |
| IniOptions.LoadOption.SetTrimValue | FitToolkit/src/fit/ini/LoadOption.java:119-122 | sets that option alone and returns the same object |
| IniSection.SetItemGet | FitToolkit/src/fit/ini/Section.java:29-38 | `getItem` after `setItem` sees the new value, other keys keep theirs, and the records grow exactly for a new key |
| IniSection.SetItemKeepsWellFormed | FitToolkit/src/fit/ini/Section.java:29-38 | `setItem` keeps a section well-formed: one record per key, every key recorded |
| IniSection.AddCommentKeepsWellFormed | FitToolkit/src/fit/ini/Section.java:178-181 | adding a comment keeps a section well-formed |
| IniSection.AppendToLastKeepsWellFormed | FitToolkit/src/fit/ini/Section.java:147-161 | appending to the last record keeps a section well-formed |
| IniSection.AppendToLastExtendsValue | FitToolkit/src/fit/ini/Section.java:147-161 | after a key/value record, `appendToLast` extends that key's value |
| IniSection.KeyValueRecordsFilter | FitToolkit/src/fit/ini/Section.java:201-203 | the filter keeps exactly the key/value records, never grows, and filtering twice is filtering once |
| IniSection.KeyValueRecordsOrder | FitToolkit/src/fit/ini/Section.java:201-203 | the kept records keep their original order |
| IniSection.RemoveAllCommentsKeepsKeyValues | FitToolkit/src/fit/ini/Section.java:201-203 | the map is untouched, exactly the key/value records remain, and doing it twice is doing it once |
| IniSection.RemoveAllCommentsKeepsWellFormed | FitToolkit/src/fit/ini/Section.java:201-203 | removing comments keeps a section well-formed |
| IniSection.ToListOfWellFormed | FitToolkit/src/fit/ini/Section.java:220-235 | one line per record; every key/value line carries the key's current value; each key is printed on exactly one line |
| IniSection.CommentsAfterUpdates | FitToolkit/src/fit/ini/Section.java:188-196 | an added comment becomes the last of `getComments`; `setItem` adds none; after `removeAllComments` there are none |
| IniSection.CountAfterUpdates | FitToolkit/src/fit/ini/Section.java:55-57 | `setItem` of a new key adds one to `count`; `remove` of a present key takes one away |
| IniSection.RemoveLeavesStaleLine | FitToolkit/src/fit/ini/Section.java:92-94 | after `remove` the key is still printed, as `key=null` |
| IniSection.RemoveThenSetPrintsTwice | FitToolkit/src/fit/ini/Section.java:29-94 | setting a removed key again prints its line twice |
| IniSection.RenameLeavesStaleLine | FitToolkit/src/fit/ini/Section.java:103-116 | after `rename` the new key is never printed and the old key prints as `key=null` |
| IniSection.RenameMovesValue | FitToolkit/src/fit/ini/Section.java:103-116 | a rename moves the value to the new key, the old key is gone, and other keys keep theirs |
| IniSection.Section.constructor | FitToolkit/src/fit/ini/Section.java:62-63 | a new section is empty |
| IniSection.Section.Contains | FitToolkit/src/fit/ini/Section.java:82-84 | holds exactly when `getItem` finds a value |
| IniSection.Section.GetOrDefault | FitToolkit/src/fit/ini/Section.java:72-74 | the value when the key is present, otherwise the default |
| IniSection.Section.GetKeys | FitToolkit/src/fit/ini/Section.java:210-212 | a key is listed exactly when `contains` holds for it |
| IniSection.Section.SetItem | FitToolkit/src/fit/ini/Section.java:29-38 | a null value throws and changes nothing; otherwise the section becomes `SetItemOf` |
| IniSection.Section.Remove | FitToolkit/src/fit/ini/Section.java:92-94 | returns whether the key was present; the section becomes `RemoveOf` |
| IniSection.Section.Rename | FitToolkit/src/fit/ini/Section.java:103-116 | true exactly when the names differ and the old key exists; the section becomes `RenameOf` |
| IniSection.Section.Clone | FitToolkit/src/fit/ini/Section.java:123-130 | a new section with the same contents |
| IniSection.Section.Clear | FitToolkit/src/fit/ini/Section.java:135-138 | the section becomes empty |
| IniSection.Section.AppendToLast | FitToolkit/src/fit/ini/Section.java:147-161 | null throws and changes nothing; otherwise the section becomes `AppendToLastOf` |
| IniSection.Section.AddComment | FitToolkit/src/fit/ini/Section.java:178-181 | null throws and changes nothing; otherwise a comment or text record is appended |
| IniSection.Section.RemoveAllComments | FitToolkit/src/fit/ini/Section.java:201-203 | the section becomes `RemoveAllCommentsOf` |
| IniSection.Section.ToList | FitToolkit/src/fit/ini/Section.java:220-235 | the loop prints `ToListOf` the section, with a null prefix as empty |
| IniDocument.IndexOf | FitToolkit/src/fit/ini/Ini.java:27-29 | the position holds the name, and there is none exactly when no entry has the name |
| IniDocument.FindAt | FitToolkit/src/fit/ini/Ini.java:27-29 | with distinct names, the entry at each position is the one `get` finds |
| IniDocument.PutFind | FitToolkit/src/fit/ini/Ini.java:37-42 | after `put` the name maps to the new section, others are unaffected, names stay distinct, and a new name goes at the end |
| IniDocument.RemoveAt | FitToolkit/src/fit/ini/Ini.java:167-169 | removing an entry keeps the others in order and distinct |
| IniDocument.DeleteFind | FitToolkit/src/fit/ini/Ini.java:167-169 | after `remove` the name is gone, others are unaffected, and the count drops by one exactly when it was present |
| IniDocument.RenameFind | FitToolkit/src/fit/ini/Ini.java:178-191 | the section moves to the new name, the old name is gone, and others are unaffected |
| IniDocument.CopyStep | FitToolkit/src/fit/ini/Ini.java:198-206 | each `put` of the copy loop appends, and the copy's names are those copied so far |
| IniDocument.SectionsLinesAppend | FitToolkit/src/fit/ini/Ini.java:245-252 | a section added at the end adds its header and lines at the end of the text |
| IniDocument.SectionsLinesLength | FitToolkit/src/fit/ini/Ini.java:245-252 | the text has one header per named section and one line per record |
| IniDocument.CloneSections | FitToolkit/src/fit/ini/Ini.java:201-204 | the copies have the same names and contents, in fresh objects |
| IniDocument.SectionsToList | FitToolkit/src/fit/ini/Ini.java:247-250 | the loop prints a header and the section's lines for each entry in order |
| IniDocument.Ini.constructor | FitToolkit/src/fit/ini/Ini.java:83-85 | an empty default section, no named sections, prefix `;` |
| IniDocument.Ini.Of | FitToolkit/src/fit/ini/Ini.java:198-206 | a document over the given parts |
| IniDocument.Ini.GetSection | FitToolkit/src/fit/ini/Ini.java:27-29 | null exactly when no section has the name (a null name as the empty one); otherwise the section stored under it |
| IniDocument.Ini.Contains | FitToolkit/src/fit/ini/Ini.java:157-159 | holds exactly when the name (null as empty) is a section name |
| IniDocument.Ini.GetSectionNames | FitToolkit/src/fit/ini/Ini.java:236-238 | one name per section, each naming a section |
| IniDocument.Ini.GetOrDefault | FitToolkit/src/fit/ini/Ini.java:112-114 | the section stored under the name when there is one, otherwise the default |
| IniDocument.Ini.SetSection | FitToolkit/src/fit/ini/Ini.java:37-42 | a null section throws and changes nothing; otherwise the section is put under the name |
| IniDocument.Ini.SetCommentPrefix | FitToolkit/src/fit/ini/Ini.java:67-69 | null throws and changes nothing; otherwise the prefix is replaced |
| IniDocument.Ini.GetOrAdd | FitToolkit/src/fit/ini/Ini.java:93-103 | returns the existing section unchanged, or a new empty one appended under the name |
| IniDocument.Ini.SetEntry | FitToolkit/src/fit/ini/Ini.java:147-149 | the section exists afterwards even when a null value throws; on success the key is set in it, and no other object changes |
| IniDocument.Ini.Remove | FitToolkit/src/fit/ini/Ini.java:167-169 | returns whether the section existed; it is removed |
| IniDocument.Ini.Rename | FitToolkit/src/fit/ini/Ini.java:178-191 | true exactly when the names differ and the old one exists; then the section moves to the new name |
| IniDocument.Ini.Clone | FitToolkit/src/fit/ini/Ini.java:198-206 | a new document, built of new objects, with the same contents |
| IniDocument.Ini.Clear | FitToolkit/src/fit/ini/Ini.java:220-226 | every named section object is emptied and the map emptied; the default section is emptied only when asked |
| IniDocument.Ini.RemoveAllComments | FitToolkit/src/fit/ini/Ini.java:231-234 | the default and every named section lose their comments, even when one object is stored twice |
| IniDocument.Ini.ToList | FitToolkit/src/fit/ini/Ini.java:245-252 | prints the default section's lines, then a header and lines per named section |
| FitIni.CommentPrefixes | FitToolkit/src/fit/ini/FitIni.java:80 | the list starts with `;` and `#`, contains the option's prefix, and has no repeats |
| FitIni.FirstPrefix | FitToolkit/src/fit/ini/FitIni.java:97-105 | none exactly when the line starts with no prefix; otherwise a listed prefix |
| FitIni.ReadLineKind | FitToolkit/src/fit/ini/FitIni.java:97-113 | for a line that is not a header, the kind the loop body's tests pick in order: a listed comment prefix, then an `=`, else unknown text |
| FitIni.IndexOfChar | FitToolkit/src/fit/ini/FitIni.java:106-108 | the position of the first occurrence of the character |
| FitIni.MatchCommentPrefix | FitToolkit/src/fit/ini/FitIni.java:97-105 | the inner loop finds the first listed prefix the line starts with |
| FitIni.StoreSection | FitToolkit/src/fit/ini/FitIni.java:86-92 | the open section goes to the default slot before any header, and under its name after one |
| FitIni.SectionStep | FitToolkit/src/fit/ini/FitIni.java:97-132 | a non-header line changes the open section as the specification of its kind says |
| FitIni.ApplyToSection | FitToolkit/src/fit/ini/FitIni.java:100-131 | each kind of line and unknown-line option changes the open section as specified |
| FitIni.ParseLine | FitToolkit/src/fit/ini/FitIni.java:83-133 | one pass of the loop body is one step of the specification |
| FitIni.BuildIni | FitToolkit/src/fit/ini/FitIni.java:76-143 | the document built is `BuildOf` of the lines, in new objects |
| FitIni.LoadFromFile | FitToolkit/src/fit/ini/FitIni.java:38-57 | fails exactly as `LoadOf` does; otherwise a new document with the contents `LoadOf` gives |
| FitIniProperties.HeaderStep | FitToolkit/src/fit/ini/FitIni.java:84-95 | a header stores the open section (default before the first header, by name after) and opens an empty one |
| FitIniProperties.RepeatedHeaderReplaces | FitToolkit/src/fit/ini/FitIni.java:84-95 | a repeated header replaces that section where it stands; the order of names is unchanged |
| FitIniProperties.PairStep | FitToolkit/src/fit/ini/FitIni.java:106-112 | a pair sets the key; a key seen before keeps its record and takes the later value |
| FitIniProperties.PairSplitsAtFirstEquals | FitToolkit/src/fit/ini/FitIni.java:106-112 | without trimming, key + `=` + value is the line, and the key has no `=` |
| FitIniProperties.ClassifyPrecedence | FitToolkit/src/fit/ini/FitIni.java:84-113 | headers win over comments, and comments over pairs |
| FitIniProperties.NoHeaderNoSections | FitToolkit/src/fit/ini/FitIni.java:135-141 | without a header every line lands in the default section and no named section exists |
| FitIniProperties.RunAppend | FitToolkit/src/fit/ini/FitIni.java:83-133 | the loop over two runs of lines is the loop over the second, from where the first left off |
| FitIniProperties.ClassifyLine | FitToolkit/src/fit/ini/FitIni.java:84-132 | each printable record's line is read back as that record's kind |
| FitIniProperties.ClassifyKeyValue | FitToolkit/src/fit/ini/FitIni.java:106-112 | a printed pair splits back into its key and value |
| FitIniProperties.ClassifyComment | FitToolkit/src/fit/ini/FitIni.java:97-105 | a printed comment reads back as the comment's text |
| FitIniProperties.ClassifyOther | FitToolkit/src/fit/ini/FitIni.java:114-132 | printed other text is neither a header, a comment nor a pair |
| FitIniProperties.SectionReadBack | FitToolkit/src/fit/ini/FitIni.java:83-133 | reading a loadable section's lines into an empty section rebuilds each prefix of its records |
| FitIniProperties.SectionLinesReadBack | FitToolkit/src/fit/ini/FitIni.java:83-133 | reading a loadable section's printed lines gives that section back |
| FitIniProperties.SectionsReadBack | FitToolkit/src/fit/ini/FitIni.java:83-141 | reading printed named sections appends them, in order, to those stored so far |
| FitIniProperties.LoadToListRoundTrip | FitToolkit/src/fit/ini/FitIni.java:38-143 | loading what `toList` prints for a loadable document gives the document back, with options that keep comments and other lines and use its prefix |
| FitIniProperties.InvalidOptionsRejected | FitToolkit/src/fit/ini/FitIni.java:39-44 | an empty or null prefix or a null line option fails with IllegalArgumentException whatever the file holds |
| FitIniProperties.ReadFailure | FitToolkit/src/fit/ini/FitIni.java:48-54 | a read failure gives an empty document with the option's prefix when errors are ignored, and fails otherwise |
| FitIniProperties.LoadedPrefix | FitToolkit/src/fit/ini/FitIni.java:55 | a successful load carries the option's comment prefix |
| FitIniProperties.PairOfPrinted | FitToolkit/src/fit/ini/FitIni.java:106-112 | a printed `key=value` pair without `=` in the key and without surrounding blanks splits back into that key and value, trimmed or not |
| Convert.IntValue | FitToolkit/src/fit/simplification/Convert.java:24-25 | always an int; an int-sized integral number is kept; a fraction in range is truncated toward zero |
| Convert.LongValue | FitToolkit/src/fit/simplification/Convert.java:54-55 | always a long; a long-sized integral number is kept |
| Convert.ToInt | FitToolkit/src/fit/simplification/Convert.java:20-31 | null gives the default; any other result is the default or an int |
| Convert.ToIntOrZero | FitToolkit/src/fit/simplification/Convert.java:39-41 | always an int; null gives 0 |
| Convert.ToLong | FitToolkit/src/fit/simplification/Convert.java:50-61 | null gives the default; any other result is the default or a long |
| Convert.ToLongOrZero | FitToolkit/src/fit/simplification/Convert.java:69-71 | always a long; null gives 0 |
| Convert.ToDouble | FitToolkit/src/fit/simplification/Convert.java:110-121 | null gives the default; a number gives its value |
| Convert.ToFloat | FitToolkit/src/fit/simplification/Convert.java:80-91 | null gives the default; a number gives its value |
| Convert.ToBoolean | FitToolkit/src/fit/simplification/Convert.java:140-153 | null gives the default; anything else gives a boolean |
| Convert.EnumToInt | FitToolkit/src/fit/simplification/Convert.java:181-183 | null gives null; a constant gives its ordinal |
| Convert.ToEnumByImplicit | FitToolkit/src/fit/simplification/Convert.java:195-209 | fails with IllegalArgumentException exactly when the class is null |
| Convert.ToIntOfIntToString | FitToolkit/src/fit/simplification/Convert.java:20-31 | the printed text of an int converts back to it, whatever the default |
| Convert.ToLongOfIntToString | FitToolkit/src/fit/simplification/Convert.java:50-61 | the printed text of a long converts back to it |
| Convert.ToDoubleOfIntToString | FitToolkit/src/fit/simplification/Convert.java:80-121 | the printed text of an integer converts to its value as a double or a float |
| Convert.NoDigitsGivesDefault | FitToolkit/src/fit/simplification/Convert.java:20-61 | text without a decimal digit gives the default |
| Convert.BooleanGivesDefault | FitToolkit/src/fit/simplification/Convert.java:20-61 | a Boolean gives the default under every integer conversion |
| Convert.OneArgumentDefaults | FitToolkit/src/fit/simplification/Convert.java:39-71 | the one-argument forms give 0 for null and for text that is not a number |
| Convert.NumbersNarrow | FitToolkit/src/fit/simplification/Convert.java:20-61 | examples that a Number is narrowed, not parsed: 2^32 + 5 keeps only its low 32 bits under `toInt`, and ±2.75 is truncated to ±2 |
| Convert.NumberTruth | FitToolkit/src/fit/simplification/Convert.java:140-173 | `toBoolean` of a Number is its non-zero test, so 0.5 is true though `toInt` makes it 0 |
| Convert.BooleanText | FitToolkit/src/fit/simplification/Convert.java:140-153 | the printed text of either boolean converts back to it; examples show that case is ignored and that other text is false |
| Convert.EnumRoundTrip | FitToolkit/src/fit/simplification/Convert.java:181-209 | a constant's ordinal selects that constant again |
| Convert.OrdinalRoundTrip | FitToolkit/src/fit/simplification/Convert.java:195-209 | a position among the constants selects the constant whose ordinal it is |
| Convert.EnumDefaults | FitToolkit/src/fit/simplification/Convert.java:195-209 | a null ordinal, an ordinal outside the constants or a class without constants gives the default |
| Common.GetValue | src/toolkit/Common.java:32-40 | the loop keeps exactly the digits of the text, in order |
| Common.CInt | src/toolkit/Common.java:28-30 | always an int; null gives 0 |
| Common.KeepDigitsCount | src/toolkit/Common.java:32-40 | each digit occurs in the result as often as in the input, and nothing else occurs |
| Common.KeepDigitsNone | src/toolkit/Common.java:32-40 | text without digits gives the empty string |
| Common.KeepDigitsIdempotent | src/toolkit/Common.java:32-40 | filtering twice is filtering once |
| Common.CIntOfIntToString | src/toolkit/Common.java:28-30 | the printed text of an int converts back to it |
| Common.CIntOfDigits | src/toolkit/Common.java:28-30 | digits convert to their value when it fits an int, and to 0 when empty or too large |
| Common.FieldValue | src/windows/component/RgbPanel.java:97-98 | `cInt(getValue(text))` is never negative: the value of the text's digits when it fits an int, else 0 |
| CommandLine.Contains | src/main/CommandLine.java:99-111 | holds exactly when the argument is in the list |
| CommandLine.ArgumentType | src/main/CommandLine.java:99-111 | 1 exactly for an option, 2 exactly for a mode, 0 exactly for anything else |
| CommandLine.ScanArguments | src/main/CommandLine.java:25-45 | the loop produces exactly the scan `ScanOf` specifies |
| CommandLine.OnlyExit | src/main/CommandLine.java:25-45 | the scan can fail only by exiting the program |
| CommandLine.OptionsAppended | src/main/CommandLine.java:25-45 | a run of options is appended in order, repeats included |
| CommandLine.ModeTakesNext | src/main/CommandLine.java:25-45 | a mode takes the next token as its value, even an option, a mode or unknown text |
| CommandLine.ModeWithoutValueExits | src/main/CommandLine.java:25-45 | a mode as the last token exits |
| CommandLine.UnknownExits | src/main/CommandLine.java:25-45 | an unknown token exits, whatever follows it |
| CommandLine.LaterModeWins | src/main/CommandLine.java:25-45 | a later mode and value replace an earlier pair |
| CommandLine.ScanArgumentsRoundTrip | src/main/CommandLine.java:25-45 | scanning the arguments a result stands for gives that result back |
| JavaNum.Wrap32Congruent | ColorPadCore/src/colorpad/core/Basic.java:21-30 | wrapping after every step of an accumulation gives the wrap of the exact value |
| JavaNum.RoundToIntInRange | ColorPadCore/src/colorpad/core/Basic.java:32-34 | inside the int range rounding is floor(x + 0.5) |
| JavaNum.RoundToIntMonotone | ColorPadCore/src/colorpad/core/Basic.java:32-34 | rounding is monotone |
| JavaNum.FmodRange | ColorPadCore/src/colorpad/core/converter/DefaultModelConverters.java:42 | `%` on a non-negative double lands in [0, m) |
| JavaText.ParseIntOfIntToString | ColorPadCore/src/colorpad/core/Basic.java:81-87 | parsing the printed text of an int gives the int back |
| JavaText.ParseIntegerOfIntToString | FitToolkit/src/fit/simplification/Convert.java:50-61 | parsing the printed text of an integer within the bounds gives it back |
| JavaText.ParseDoubleOfIntToString | ColorPadCore/src/colorpad/core/Basic.java:58-74 | parsing the printed text of an integer as a double gives the integer |
| JavaText.SplitJoin | ColorPadCore/src/colorpad/core/Basic.java:58-74 | splitting pieces joined by the separator gives the pieces back, when the last one is not empty |
| JavaText.TrimIdempotent | FitToolkit/src/fit/ini/FitIni.java:109-110 | trimming twice is trimming once |

## Left out

- Floating point: `double` is an exact real, and `float` is not rounded to single precision. Results that differ only in rounding, such as `HsbRoundTrip`, hold over the reals and not necessarily bit for bit.
- XYZ and L\*a\*b\* conversions (`RGB_TO_XYZ`, `XYZ_TO_RGB`, `XYZ_TO_LAB`, `LAB_TO_XYZ`): they use `Math.pow`, and are a function parameter of the registry.
- `DefaultModelConverters.registerToManager` is not part of this model: the table it fills is a parameter of `ModelsManager`'s constructor.
- `Basic.toLengthSixHex` is not part of this model: `Basic.ToLengthSixHex` gives the six hex digits that `Rgb.toHex` documents.
- Static state: `ModelsManager` is an object passed around, not a class with static fields. `synchronized` and every other concurrency aspect are left out.
- File I/O: `loadFromFile` takes the outcome of reading the file as a parameter.
- `saveToFile`, the iterators, the `loadFromFile(path)` and `loadFromFileSimply` overloads, and `IterableReader` are left out. The overloads only preset options.
- `Formula`'s fallback `new double[0]` after the switch is unreachable, and has no counterpart.
- `Section.setItem(String, Object)` is left out. It prints the object with `toString`, and the model has no objects of unknown class.
- `Ini.getDefaultSection`, `getCommentPrefix`, `count` and `getEntry`, and `Section.getItem`, `getComments` and `count`, are plain accessors without contracts of their own. The lemmas about the operations state what they return.
- `Basic.decimalFormat` and the `toString()` overloads that format doubles are left out: `MessageFormat` rounding is not modelled.
- `Basic.isEmpty(int[])` and `isEmpty(double[])` are left out; they are length tests.
- Hex and text-only getters (`IConvertBridge.toHex` and the bridges' `get*` methods) are left out: they return fields unchanged.
- `CommandLine`: printing, `help`, `convert`, `scheme` and the dispatch after the scan (`run` from line 46) are left out. Every `System.exit` in the scan is `ProgramExit`.
- `Common`: the message dialogs, the clipboard, `getURL`, `getOs` and `getFontName` are left out. They are user interface or operating-system calls.
- Common.GetValue: `Character.isDigit` is treated as ASCII only. Digits from other scripts are dropped. A null `raw` makes `raw.length()` throw NullPointerException (Common.java:32-35); the model takes a non-null string.
- JavaText.ParseDouble: `NaN`, `Infinity`, hexadecimal floating text and the rounding to the nearest double are not modelled, so such text does not parse.
- JavaText.ParseInteger: digits from other scripts are not accepted.
- Convert.IntValue: `BigDecimal.intValue` and the other `Number` subclasses are modelled as an integral or a floating value, with Java's primitive narrowing.
- Convert.ToEnumByImplicit: `toEnum` is the same function with its argument order.
- Convert.ToBoolean: a `Boolean` is taken as itself and any other object by its text; `toString` of arbitrary classes is modelled as given text.
- Registry.Apply: converters registered by callers are the same function parameter as the XYZ and L\*a\*b\* ones.
- GrayAlgorithms.ImplementationCalc: a caller-supplied `IGrayscaleAlgorithm` is known only by its `calc(r, g, b)`, a function parameter; an implementation that overrides the default `calc(Rgb)` is not modelled.
- Bridges.NormalConvertBridge.SetRgbFrom: on failure the fields are unspecified, because the constructor that called it throws and the half-built bridge is discarded.
- Bridges.Create: the seven Java constructors are one method returning `Result`, since a Dafny constructor cannot fail.
