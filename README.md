# Go-to-slide link of a slide presentation, in Dafny

This project models the `GoToSlide` element of a slide presentation: a link
placed on a slide that, when clicked or activated from the keyboard, reports an
xAPI "consumed" statement and asks the presentation to navigate to a slide.

The constructor is a one-shot resolution. From the link's parameters
(`title`, `goToSlide`, `invisible`, `goToSlideType`) and from the presentation's
localised strings and current slide index, it computes four values:

- the link's title;
- its tab index;
- its class string;
- the zero-based slide index it navigates to.

The model states this as the pure function `GoToSlide.Create`, which returns
either the constructed link or the `TypeError` that the constructor throws when
it must fill a title template that is missing. One activation is the function
`GoToSlide.Activate`. It returns the ordered list of effects the handler
performs: report the statement, emit `navigate` with the target, suppress the
default action.

Modules:

- `Options`: `Option` (where `None` is JavaScript's `undefined`) and `Result`.
- `JsStrings`: the first-occurrence `String.prototype.replace` with a string
  pattern. This includes the `$`-pattern expansion of the replacement string
  (the GetSubstitution abstract operation of ECMA-262).
- `Decimal`: `Number.prototype.toString()` of an integer, and reading the text
  back.
- `GoToSlide`: the navigation types, the constructor's resolution, the
  activation trace and the xAPI object name.

Modelling choices that follow the code:

- `goToSlideType` defaults to `"specified"` only when it is absent. Any other
  string, the empty one included, is `Other`. For `Other` the target is
  `goToSlide - 1` and no title is synthesised: the constructor's switch has no
  default branch, so an untitled visible link keeps its absent or empty title.
- A title counts as given only when it is non-empty, which is JavaScript's `!title`.
- The localised strings may lack a key. A missing `goToSlide` template makes
  `replace` throw, but only when a title has to be synthesised. A missing
  `nextSlide` or `prevSlide` is turned into the text `"undefined"` by
  `replace`. A missing `l10n` object has the same outcome as one with every
  key missing.

## Model

The row for `GoToSlide.Create` also covers the helpers it is built from, which
have no contract of their own: `ResolveTitle` (lines 36-53), `ResolveTarget`
(lines 58-67), `ResolveTabIndex` (lines 34 and 38), `ResolveClasses` (lines 33
and 55), `SlideNumber` (the default at line 31), `Truthy` (`!title` at line 41)
and `Noun` (the text `undefined` that `replace` substitutes for a missing noun
at lines 48 and 51).

| member | source | states |
|---|---|---|
| `GoToSlide.NavTypeOf` | src/scripts/go-to-slide.js:9-13 | each of the three enumeration strings selects its type; an absent type means "specified"; every other string is none of the three |
| `GoToSlide.Create` | src/scripts/go-to-slide.js:31-75 | throws exactly when a visible untitled link of a recognised type has no template; href is `#`; tab index is -1 iff invisible, else 0; classes are `h5p-press-to-go`, plus ` h5p-visible` iff visible; an invisible link has no title; a visible link keeps a non-empty given title, and for an unrecognised type keeps whatever title it was given; target is current+1 for next, current-1 for previous (unclamped), and slide number - 1 otherwise |
| `GoToSlide.DefaultTargetIsFirstSlide` | src/scripts/go-to-slide.js:31-59 | with neither slide number nor type given, the target is slide 0 |
| `GoToSlide.RelativeTargetIgnoresSlideNumber` | src/scripts/go-to-slide.js:58-67 | for next and previous, changing the configured slide number does not change the target |
| `GoToSlide.AbsoluteTargetIgnoresCurrentIndex` | src/scripts/go-to-slide.js:58-67 | for specified and unrecognised types, the current slide does not affect the target |
| `GoToSlide.SpecifiedTitleNamesSlide` | src/scripts/go-to-slide.js:41-46 | a visible untitled specified link's title is the template with its leftmost `:num` replaced by the decimal slide number, and that text reads back as the slide number |
| `GoToSlide.RelativeTitleNamesNoun` | src/scripts/go-to-slide.js:47-52 | a visible untitled next/previous link's title is the template with its leftmost `:num` replaced by the localised noun (or `undefined` when that key is missing), for a noun without `$` |
| `GoToSlide.TemplateWithoutPlaceholder` | src/scripts/go-to-slide.js:41-53 | a template without `:num` becomes the title unchanged, for every recognised type |
| `GoToSlide.ObjectName` | src/scripts/go-to-slide.js:121-125 | the statement's object name is never empty: it is the title when that is non-empty, and otherwise `Go To slide` |
| `GoToSlide.ConsumedStatement` | src/scripts/go-to-slide.js:109-125 | the statement uses the `consume` verb id with en-US display `consumed`, has completion set, and its object name map is exactly en-US to the title when that is non-empty and to `Go To slide` otherwise |
| `GoToSlide.Activate` | src/scripts/go-to-slide.js:77-81 | an activation consists of three effects, in this order: the whole consumed statement for the link's title (verb, `consumed` display, completion, name with the fallback), then `navigate` carrying the link's target, then prevent-default |
| `GoToSlide.NavigatesOnce` | src/scripts/go-to-slide.js:77-81 | an activation emits exactly one event; that event is `navigate` with the target; only the report comes before it and only prevent-default comes after it |
| `GoToSlide.ReportedName` | src/scripts/go-to-slide.js:36-125 | an invisible link always reports `Go To slide`; a visible link with a non-empty given title reports that title |
| `JsStrings.FindFirst` | src/scripts/go-to-slide.js:45-51 | returns the leftmost index where the pattern occurs, or nothing iff the pattern occurs nowhere |
| `JsStrings.FindFrom` | src/scripts/go-to-slide.js:45-51 | returns the first occurrence at or after a start index, or nothing iff there is none from there on |
| `JsStrings.Substitution` | src/scripts/go-to-slide.js:45-51 | a replacement without `$` is inserted verbatim |
| `JsStrings.SubstitutionOfEscaped` | src/scripts/go-to-slide.js:45-51 | `$$` expands to a single `$`: any text with every `$` doubled is inserted as exactly that text, whatever the match and its surroundings |
| `JsStrings.SubstitutionOfMatch` | src/scripts/go-to-slide.js:45-51 | the replacement `$&` inserts the matched text, `` $` `` the text before the match and `$'` the text after it |
| `JsStrings.ReplaceFirst` | src/scripts/go-to-slide.js:45-51 | a string without the pattern is returned unchanged; otherwise the text before and after the leftmost occurrence is kept |
| `JsStrings.FirstOccurrence` | src/scripts/go-to-slide.js:45-51 | an occurrence with none before it is the one the search finds |
| `JsStrings.ReplaceFirstLiteral` | src/scripts/go-to-slide.js:45-51 | with a `$`-free replacement, exactly the leftmost occurrence is spliced out for the replacement |
| `JsStrings.ReplaceFirstAbsent` | src/scripts/go-to-slide.js:45-51 | a string in which the pattern never occurs is returned unchanged, whatever the replacement |
| `Decimal.Digits` | src/scripts/go-to-slide.js:45 | the digits of a natural number: at least one, all decimal digits, and a leading `0` only in the text `0` of zero |
| `Decimal.IntToDecimal` | src/scripts/go-to-slide.js:45 | `goToSlide.toString()` is non-empty, contains no `$`, starts with `-` iff the number is negative, and has no leading zero after the sign except in the text `0` of zero |
| `Decimal.DigitsRoundTrip` | src/scripts/go-to-slide.js:45 | reading back the digits of a natural number gives that number |
| `Decimal.DecimalRoundTrip` | src/scripts/go-to-slide.js:45 | the text of any integer is well-formed decimal text and reads back as that integer |

## Left out

- The anchor element is not built through jQuery, and `attach` is not modelled (src/scripts/go-to-slide.js:70-75, 90-92). These are DOM operations of a library that is not part of this model. The model keeps only the element's attributes, as `GoToSlide.Anchor`.
- `on` and the `EventDispatcher` are not modelled (src/scripts/go-to-slide.js:32, 100-102). `./globals` is not part of this model. Emitting `navigate` is an abstract effect; the subscriber list and the delivery order to listeners are not modelled.
- `addClickAndKeyboardListeners` is not modelled (src/scripts/go-to-slide.js:77). `./utils` is not part of this model. Each activation, by click or key, is one call of `GoToSlide.Activate`.
- Creating and dispatching the xAPI event through `parent.parent` is not modelled (src/scripts/go-to-slide.js:110-119, 127). These are host calls. Only the statement's contents are modelled, as the `Report` effect.
- `Decimal.IntToDecimal`: JavaScript numbers are doubles. Slide numbers and indices are modelled as unbounded integers. The model leaves out non-integer and non-numeric values, precision loss beyond 2^53, and the exponent form that `toString()` uses from 10^21.
- `GoToSlide.RelativeTitleNamesNoun` covers only nouns without `$`. For a noun containing `$`, the title is the template with `JsStrings.Substitution`'s expansion of the noun.
- Truthiness is modelled only for absent, empty and non-empty string titles. A non-string title and an `invisible` flag that is not a boolean are not modelled.
- Parameters given as `null` are not modelled. `None` is `undefined`, the only value to which the defaults `goToSlide = 1` and `goToSlideType = 'specified'` apply. A `null` type would match no case, and a `null` slide number would make `toString()` throw.
