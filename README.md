# Blog-post and email validators, modelled in Dafny

The front end of the blog application checks user input with two pure
predicates from `src/frontend/utils/validate.ts`:

- `validateBlogPostFormData(formData)` accepts a blog post only when the form
  data is an object whose `blogTitle` and `blogText` are strings. After
  `trim()`, the title must be 2 to 200 code units long and the text 2 to 10000.
  Anything else gives `false`.
- `validateEmailAddressStructure(emailAddress)` is a full match against
  `^[a-zA-Z0-9._%+-]+@[a-zA-Z0-9.-]+\.[a-zA-Z]{2,}$`.

The model is made of functions and lemmas, because the source is.

- `js_value.dfy` (module `JsValues`): the JavaScript values a form handler
  can receive, plus `typeof`, ToBoolean (`!v`) and property reads.
- `js_string.dfy` (module `JsString`): `String.prototype.trim`, using the
  white-space and line-terminator set of ECMA-262 sections 12.2 and 12.3, and
  `length` counted in UTF-16 code units.
- `blog_post.dfy` (module `BlogPost`): the blog-post validator. Its guards are
  checked in the source's order. The file also holds the validator's full
  characterisation and the length boundaries used by the unit tests.
- `email.dfy` (module `Email`): the pattern written as a predicate,
  `IsEmailShape`, meaning "the address is L@D.T". The executable checker looks
  at the first `@` and the last `.`, and is proved equal to that predicate on
  every string.

## Choices

- **Length is counted in UTF-16 code units.** JavaScript's `length` counts
  UTF-16 code units, so a character above U+FFFF counts as 2. The model counts
  the same way (`JsString.Utf16Length`). `JsString.Utf16LengthOfBmp` shows
  this equals the character count exactly when every character is in the
  Basic Multilingual Plane.

## Model

| member | source | states |
|---|---|---|
| JsValues.TypeOf | src/frontend/utils/validate.ts:5 | `typeof v` is "string" exactly for strings, and "object" exactly for `null` and objects |
| JsValues.Truthy | src/frontend/utils/validate.ts:5 | `null` and `undefined` are falsy; every object and function is truthy |
| JsValues.Get | src/frontend/utils/validate.ts:9-10 | `formData.blogTitle` and `formData.blogText` as own-property reads, with `undefined` for a missing property; the laws a caller relies on are stated in `JsValues.GetUpdate` |
| JsValues.GetUpdate | src/frontend/utils/validate.ts:9-10 | a property reads back the value last written under its name; writing or removing a different property does not change what it reads |
| JsValues.ObjectGuard | src/frontend/utils/validate.ts:5-7 | the guard "falsy, or typeof not \"object\"" lets through exactly the objects; `null` is stopped even though its type is "object" |
| JsString.IsWhiteSpace | src/frontend/utils/validate.ts:18-19 | the characters `trim()` strips: the ECMA-262 WhiteSpace and LineTerminator code points (TAB, VT, FF, ZWNBSP, the Zs category, LF, CR, LS, PS) |
| JsString.TrimStart | src/frontend/utils/validate.ts:18-19 | the result is a suffix of the input; what was dropped is all white space; the result does not start with white space |
| JsString.TrimEnd | src/frontend/utils/validate.ts:18-19 | the result is a prefix of the input; what was dropped is all white space; the result does not end with white space |
| JsString.Trim | src/frontend/utils/validate.ts:18-19 | `trim()` is never longer than its input and never starts or ends with white space |
| JsString.TrimUnique | src/frontend/utils/validate.ts:18-19 | if the input is white space + r + white space, and r has no white space at its ends, then `trim()` gives r |
| JsString.TrimSplit | src/frontend/utils/validate.ts:18-19 | every input is (stripped white space) + `trim()` result + (stripped white space) |
| JsString.TrimIdempotent | src/frontend/utils/validate.ts:18-19 | trimming twice gives the same result as trimming once |
| JsString.TrimPaddingInvariant | src/frontend/utils/validate.ts:18-19 | adding white space on either side never changes the trimmed result |
| JsString.TrimEmptyIff | src/frontend/utils/validate.ts:18-19 | `trim()` gives the empty string if and only if the input is all white space |
| JsString.TrimOfTrimmed | src/frontend/utils/validate.ts:18-19 | a string without white space at its ends is left unchanged |
| JsString.Utf16Length | src/frontend/utils/validate.ts:22-27 | `.length` of a string: one code unit per character up to U+FFFF, two (a surrogate pair) above; its laws are `Utf16LengthConcat`, `Utf16LengthBounds` and `Utf16LengthOfBmp` |
| JsString.Utf16LengthConcat | src/frontend/utils/validate.ts:22 | the code-unit length of a concatenation is the sum of the lengths |
| JsString.Utf16LengthBounds | src/frontend/utils/validate.ts:22 | `length` is between the number of characters and twice that number |
| JsString.Utf16LengthOfBmp | src/frontend/utils/validate.ts:22 | `length` equals the character count if and only if every character is in the Basic Multilingual Plane |
| JsString.Repeat | tests/unit/utils/validate.test.ts:51-52 | `c.repeat(n)` has n elements, and every one is c |
| BlogPost.ValidateBlogPostFormData | src/frontend/utils/validate.ts:3-32 | the validator, guard by guard; it gives true only for objects |
| BlogPost.TitleFits | src/frontend/utils/validate.ts:22-28 | the title bounds: the trimmed title has at least 2 and at most 200 code units |
| BlogPost.TextFits | src/frontend/utils/validate.ts:22-28 | the text bounds: the trimmed text has at least 2 and at most 10000 code units |
| BlogPost.BlogPostForm | tests/unit/utils/validate.test.ts:19-24 | the form data the tests build is an object whose `blogTitle` and `blogText` are the given values |
| BlogPost.NonObjectRejected | src/frontend/utils/validate.ts:5-7 | every non-object (`null`, `undefined`, primitives, functions) is rejected |
| BlogPost.NonStringFieldRejected | src/frontend/utils/validate.ts:13-15 | an object whose title or text is not a string, or is missing, is rejected |
| BlogPost.AcceptedIff | src/frontend/utils/validate.ts:18-31 | with string fields, the verdict is true if and only if the trimmed title has 2..200 code units and the trimmed text 2..10000 |
| BlogPost.ValidateCharacterization | src/frontend/utils/validate.ts:3-32 | true if and only if the input is an object, both fields are strings, and both fit their bounds |
| BlogPost.OtherPropertiesIgnored | src/frontend/utils/validate.ts:9-10 | changing, adding or removing any property other than `blogTitle` and `blogText` leaves the verdict unchanged |
| BlogPost.WhiteSpaceOnlyRejected | src/frontend/utils/validate.ts:18-24 | an empty or all-white-space title or text is rejected |
| BlogPost.PaddingInvariant | src/frontend/utils/validate.ts:18-19 | white space added on either side of either field never changes the verdict |
| BlogPost.TrimmedRepeatLength | tests/unit/utils/validate.test.ts:51-52 | n copies of a non-white-space BMP letter have trimmed length n |
| BlogPost.RepeatFits | src/frontend/utils/validate.ts:22-28 | n copies of a non-white-space BMP character fit as a title if and only if 2 <= n <= 200, and as a text if and only if 2 <= n <= 10000 |
| BlogPost.TitleLengthBoundary | src/frontend/utils/validate.ts:22-29 | for form data whose text fits, a title of n letters is accepted if and only if 2 <= n <= 200 (so 1 and 201 are rejected, 2 and 200 accepted) |
| BlogPost.TextLengthBoundary | src/frontend/utils/validate.ts:22-29 | for form data whose title fits, a text of n letters is accepted if and only if 2 <= n <= 10000 (so 1 and 10001 are rejected, 2 and 10000 accepted) |
| BlogPost.TrimmedLengthOfPlain | src/frontend/utils/validate.ts:18-22 | for a BMP string with no white space at its ends, the trimmed length is its character count |
| BlogPost.FormVerdict | tests/unit/utils/validate.test.ts:19-25 | the verdict on a form built like the tests' is "title fits and text fits", whatever the id and the submit type |
| BlogPost.TwoCharTitleFits | tests/unit/utils/validate.test.ts:31 | the title "Hi" fits |
| BlogPost.TwoCharTextFits | tests/unit/utils/validate.test.ts:32 | the text "OK" fits |
| BlogPost.MinimumLengthExampleAccepted | tests/unit/utils/validate.test.ts:28-36 | the minimum-length post "Hi" / "OK" is accepted |
| BlogPost.EmptyExamplesRejected | tests/unit/utils/validate.test.ts:60-78 | an empty title or empty text is rejected |
| BlogPost.CompanionTextFits | tests/unit/utils/validate.test.ts:64 | the text "Valid text" fits |
| BlogPost.CompanionTitleFits | tests/unit/utils/validate.test.ts:73 | the title "Valid title" fits |
| BlogPost.OneLetterTitleRejected | tests/unit/utils/validate.test.ts:100-108 | the one-letter title "A" is rejected |
| BlogPost.OneLetterTextRejected | tests/unit/utils/validate.test.ts:110-118 | the one-letter text "X" is rejected |
| BlogPost.LongTitleRejected | tests/unit/utils/validate.test.ts:120-128 | a title of 201 letters is rejected |
| BlogPost.LongTextRejected | tests/unit/utils/validate.test.ts:130-138 | a text of 10001 letters is rejected |
| BlogPost.NonStringExamplesRejected | tests/unit/utils/validate.test.ts:140-166 | a numeric title, a `null` text, `undefined` form data and `null` form data are all rejected |
| Email.SplitsAt | src/frontend/utils/validate.ts:37 | the pattern matched with its `@` and its final `.` at given positions: local part in `[a-zA-Z0-9._%+-]+`, domain in `[a-zA-Z0-9.-]+`, top-level part in `[a-zA-Z]{2,}`, covering the whole string |
| Email.IsEmailShape | src/frontend/utils/validate.ts:37 | the language of the anchored pattern: the strings that match it at some split |
| Email.IndexOf | src/frontend/utils/validate.ts:37 | gives the first index holding the character, or None when there is none |
| Email.LastIndexOf | src/frontend/utils/validate.ts:37 | gives the last index holding the character, or None when there is none |
| Email.ValidateEmailAddressStructure | src/frontend/utils/validate.ts:34-39 | the checker accepts if and only if the address fully matches the pattern, that is, it is L@D.T with L in `[a-zA-Z0-9._%+-]+`, D in `[a-zA-Z0-9.-]+` and T in `[a-zA-Z]{2,}` |
| Email.SeparatorsOfMatch | src/frontend/utils/validate.ts:37 | in any match, the `@` is the first `@` of the string and the separating `.` is its last `.` |
| Email.ScanFindsMatch | src/frontend/utils/validate.ts:37 | if the address matches at all, it matches at its first `@` and last `.` |
| Email.SplitUnique | src/frontend/utils/validate.ts:37 | an address matches the pattern in at most one way |
| Email.PartsMatch | src/frontend/utils/validate.ts:37 | any valid local part, domain and top-level part joined as L@D.T match |
| Email.MatchParts | src/frontend/utils/validate.ts:37 | every match splits into a valid local part, domain and top-level part |
| Email.CharOfMatch | src/frontend/utils/validate.ts:37 | in a match, each character belongs to the class of the part it is in |
| Email.AcceptedHasOneAt | src/frontend/utils/validate.ts:37-38 | an accepted address contains exactly one `@` |
| Email.AcceptedCharsAllowed | src/frontend/utils/validate.ts:37-38 | every character of an accepted address is a letter, a digit or one of `._%+-@`, so none is white space or `#` |
| Email.AcceptedEndsInLetters | src/frontend/utils/validate.ts:37-38 | an accepted address ends with a `.` followed by at least two ASCII letters |
| Email.NoAtRejected | src/frontend/utils/validate.ts:37-38 | an address with no `@` is rejected |
| Email.TwoAtsRejected | src/frontend/utils/validate.ts:37-38 | an address with two `@` is rejected |
| Email.ForbiddenCharRejected | src/frontend/utils/validate.ts:37-38 | an address containing white space or `#` is rejected |
| Email.NoDotRejected | src/frontend/utils/validate.ts:37-38 | an address with no `.` is rejected |
| Email.EmptyLocalPartRejected | src/frontend/utils/validate.ts:37-38 | an address that starts with `@` is rejected |
| Email.EmptyDomainRejected | src/frontend/utils/validate.ts:37-38 | L@.T, with no `.` in T, is rejected because its domain is empty |
| Email.StandardExampleAccepted | tests/unit/utils/validate.test.ts:194-196 | "user@example.com" is accepted |
| Email.DottedLocalExampleAccepted | tests/unit/utils/validate.test.ts:198-202 | "first.last@example.com" is accepted |
| Email.PlusExampleAccepted | tests/unit/utils/validate.test.ts:204-206 | "user+tag@example.com" is accepted |
| Email.DigitsExampleAccepted | tests/unit/utils/validate.test.ts:208-212 | "user123@example456.com" is accepted |
| Email.SubdomainExampleAccepted | tests/unit/utils/validate.test.ts:214-218 | "user@mail.example.com" is accepted |
| Email.HyphenExampleAccepted | tests/unit/utils/validate.test.ts:220-222 | "user@my-domain.com" is accepted |
| Email.NoAtExampleRejected | tests/unit/utils/validate.test.ts:226-228 | "userexample.com" is rejected |
| Email.NoDomainExampleRejected | tests/unit/utils/validate.test.ts:230-232 | "user@" is rejected |
| Email.NoLocalPartExampleRejected | tests/unit/utils/validate.test.ts:234-236 | "@example.com" is rejected |
| Email.NoTopLevelExampleRejected | tests/unit/utils/validate.test.ts:238-240 | "user@example" is rejected |
| Email.SpaceExampleRejected | tests/unit/utils/validate.test.ts:242-246 | "user name@example.com" is rejected |
| Email.DoubleAtExampleRejected | tests/unit/utils/validate.test.ts:248-250 | "user@@example.com" is rejected |
| Email.HashExampleRejected | tests/unit/utils/validate.test.ts:268-272 | "user#name@example.com" is rejected |
| Email.EmptyAndMissingExamplesRejected | tests/unit/utils/validate.test.ts:252-266 | "", "   ", and the strings "undefined" and "null" are rejected |

## Left out

- Email.ValidateEmailAddressStructure: takes a string. `RegExp.prototype.test` first converts a non-string argument to a string. The model leaves that conversion out and instead shows that "undefined" and "null", the strings `undefined` and `null` become, are rejected.
- Lone surrogates: a Dafny `char` is a Unicode scalar value, so a JavaScript string with an unpaired surrogate cannot be represented.
- JsValues.JsValue: NaN, the infinities, `-0`, Symbol and BigInt are not represented. Every number, any of these included, would be rejected by the same `typeof` guard.
- JsValues.Get: reads own properties only. The prototype chain, getters and proxies are not modelled.
- The `BlogPostFormData` type and the `blogPostFormSubmitType` constants are not part of this model. The submit type is an arbitrary value, and no lemma depends on it.
- `vite.config.ts` is build configuration and contains no validation logic.
- Some unit-test cases in `tests/unit/utils/validate.test.ts` have no example lemma of their own; each is an instance of the general lemma named:
  - the valid post at 18-26, and the special-characters post at 38-46: `BlogPost.AcceptedIff`;
  - the 200/5000-letter post at 48-56: `BlogPost.TitleLengthBoundary` and `BlogPost.TextLengthBoundary`;
  - the white-space-only fields at 80-98: `BlogPost.WhiteSpaceOnlyRejected`;
  - the padded fields at 170-188: `BlogPost.PaddingInvariant`.
