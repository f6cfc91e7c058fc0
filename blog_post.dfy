/**
 `validateBlogPostFormData`: accepts a submitted blog post exactly when the
 form data is an object whose `blogTitle` and `blogText` are strings of
 acceptable length once white space is trimmed from both ends. Lengths are
 JavaScript lengths, in UTF-16 code units. No other property of the form data
 is looked at.
 */
module BlogPost {
  import opened JsValues
  import opened JsString

  const MinLength: nat := 2
  const MaxTitleLength: nat := 200
  const MaxTextLength: nat := 10000

  /** The validator, with its guards in the order the source tests them. */
  function ValidateBlogPostFormData(formData: JsValue): (valid: bool)
    ensures valid ==> formData.Object?
  {
    if !Truthy(formData) || TypeOf(formData) != "object" then false
    else
      var blogTitle := Get(formData.props, "blogTitle");
      var blogText := Get(formData.props, "blogText");
      if TypeOf(blogTitle) != "string" || TypeOf(blogText) != "string" then false
      else
        var trimmedTitle := Trim(blogTitle.s);
        var trimmedText := Trim(blogText.s);
        if Utf16Length(trimmedTitle) < MinLength || Utf16Length(trimmedText) < MinLength then false
        else if Utf16Length(trimmedTitle) > MaxTitleLength || Utf16Length(trimmedText) > MaxTextLength then false
        else true
  }

  /** A title is acceptable when, trimmed, it is 2 to 200 code units long. */
  predicate TitleFits(title: string) {
    MinLength <= Utf16Length(Trim(title)) <= MaxTitleLength
  }

  /** A text is acceptable when, trimmed, it is 2 to 10000 code units long. */
  predicate TextFits(text: string) {
    MinLength <= Utf16Length(Trim(text)) <= MaxTextLength
  }

  /** The form data the unit tests build: an object with an id, a title, a
      text and a submit type. */
  function BlogPostForm(blogId: JsValue, blogTitle: JsValue, blogText: JsValue, submitType: JsValue): (formData: JsValue)
    ensures formData.Object?
    ensures Get(formData.props, "blogTitle") == blogTitle
    ensures Get(formData.props, "blogText") == blogText
  {
    Object(map["blogId" := blogId, "blogTitle" := blogTitle, "blogText" := blogText,
               "submitType" := submitType])
  }

  // ---------------------------------------------------------------------------
  // What the validator accepts

  /** Anything that is not an object (`null`, `undefined`, a primitive, a
      function) is rejected. */
  lemma NonObjectRejected(formData: JsValue)
    requires !formData.Object?
    ensures !ValidateBlogPostFormData(formData)
  {
    ObjectGuard(formData);
  }

  /** An object whose title or text is not a string (a number, `null`, a
      missing property, ...) is rejected. */
  lemma NonStringFieldRejected(props: map<string, JsValue>)
    requires !Get(props, "blogTitle").Str? || !Get(props, "blogText").Str?
    ensures !ValidateBlogPostFormData(Object(props))
  {
  }

  /** For string fields the verdict is: both fit their bounds. */
  lemma AcceptedIff(props: map<string, JsValue>, title: string, text: string)
    requires Get(props, "blogTitle") == Str(title)
    requires Get(props, "blogText") == Str(text)
    ensures ValidateBlogPostFormData(Object(props)) <==> TitleFits(title) && TextFits(text)
  {
  }

  /** The validator accepts exactly the objects with two fitting string
      fields. */
  lemma ValidateCharacterization(formData: JsValue)
    ensures ValidateBlogPostFormData(formData) <==>
              && formData.Object?
              && Get(formData.props, "blogTitle").Str?
              && Get(formData.props, "blogText").Str?
              && TitleFits(Get(formData.props, "blogTitle").s)
              && TextFits(Get(formData.props, "blogText").s)
  {
    if formData.Object? {
      var props := formData.props;
      if Get(props, "blogTitle").Str? && Get(props, "blogText").Str? {
        AcceptedIff(props, Get(props, "blogTitle").s, Get(props, "blogText").s);
      } else {
        NonStringFieldRejected(props);
      }
    } else {
      NonObjectRejected(formData);
    }
  }

  /** Only `blogTitle` and `blogText` are inspected: changing, adding or
      removing any other property never changes the verdict. */
  lemma OtherPropertiesIgnored(props: map<string, JsValue>, key: string, w: JsValue)
    requires key != "blogTitle" && key != "blogText"
    ensures ValidateBlogPostFormData(Object(props[key := w])) == ValidateBlogPostFormData(Object(props))
    ensures ValidateBlogPostFormData(Object(props - {key})) == ValidateBlogPostFormData(Object(props))
  {
    GetUpdate(props, "blogTitle", key, w);
    GetUpdate(props, "blogText", key, w);
  }

  /** Empty or white-space-only titles and texts are rejected. */
  lemma WhiteSpaceOnlyRejected(props: map<string, JsValue>, title: string, text: string)
    requires Get(props, "blogTitle") == Str(title)
    requires Get(props, "blogText") == Str(text)
    requires AllWhiteSpace(title) || AllWhiteSpace(text)
    ensures !ValidateBlogPostFormData(Object(props))
  {
    TrimEmptyIff(title);
    TrimEmptyIff(text);
  }

  /** Padding either field with white space on either side never changes the
      verdict. */
  lemma PaddingInvariant(props: map<string, JsValue>, title: string, text: string,
                         p1: string, q1: string, p2: string, q2: string)
    requires Get(props, "blogTitle") == Str(title)
    requires Get(props, "blogText") == Str(text)
    requires AllWhiteSpace(p1) && AllWhiteSpace(q1) && AllWhiteSpace(p2) && AllWhiteSpace(q2)
    ensures ValidateBlogPostFormData(Object(props["blogTitle" := Str(p1 + title + q1)]
                                                ["blogText" := Str(p2 + text + q2)]))
            == ValidateBlogPostFormData(Object(props))
  {
    var title', text' := p1 + title + q1, p2 + text + q2;
    var padded := props["blogTitle" := Str(title')]["blogText" := Str(text')];
    assert Get(padded, "blogTitle") == Str(title');
    assert Get(padded, "blogText") == Str(text');
    AcceptedIff(padded, title', text');
    AcceptedIff(props, title, text);
    assert TitleFits(title') == TitleFits(title) by { TrimPaddingInvariant(p1, title, q1); }
    assert TextFits(text') == TextFits(text) by { TrimPaddingInvariant(p2, text, q2); }
  }

  // ---------------------------------------------------------------------------
  // Boundaries

  /** A string of `n` copies of a letter in the Basic Multilingual Plane that
      is not white space has trimmed length `n`. */
  lemma TrimmedRepeatLength(c: char, n: nat)
    requires !IsWhiteSpace(c) && c < '\U{10000}'
    ensures Utf16Length(Trim(Repeat(c, n))) == n
  {
    TrimOfTrimmed(Repeat(c, n));
    Utf16LengthOfBmp(Repeat(c, n));
  }

  /** The verdict on the form data the unit tests build from a title and a
      text, whatever the submit type. */
  lemma FormVerdict(blogId: JsValue, title: string, text: string, submitType: JsValue)
    ensures ValidateBlogPostFormData(BlogPostForm(blogId, Str(title), Str(text), submitType))
            <==> TitleFits(title) && TextFits(text)
  {
    AcceptedIff(BlogPostForm(blogId, Str(title), Str(text), submitType).props, title, text);
  }

  /** `n` copies of a non-white-space BMP character make a fitting title
      exactly when `2 <= n <= 200`, and a fitting text exactly when
      `2 <= n <= 10000`. */
  lemma RepeatFits(c: char, n: nat)
    requires !IsWhiteSpace(c) && c < '\U{10000}'
    ensures TitleFits(Repeat(c, n)) <==> 2 <= n <= 200
    ensures TextFits(Repeat(c, n)) <==> 2 <= n <= 10000
  {
    TrimmedRepeatLength(c, n);
  }

  /** With an acceptable text, a title of `n` letters is accepted exactly when
      `2 <= n <= 200`: 1 and 201 are rejected, 2 and 200 accepted. */
  lemma TitleLengthBoundary(props: map<string, JsValue>, n: nat, text: string)
    requires Get(props, "blogTitle") == Str(Repeat('A', n))
    requires Get(props, "blogText") == Str(text)
    requires TextFits(text)
    ensures ValidateBlogPostFormData(Object(props)) <==> 2 <= n <= 200
  {
    RepeatFits('A', n);
    AcceptedIff(props, Repeat('A', n), text);
  }

  /** With an acceptable title, a text of `n` letters is accepted exactly when
      `2 <= n <= 10000`: 1 and 10001 are rejected, 2 and 10000 accepted. */
  lemma TextLengthBoundary(props: map<string, JsValue>, title: string, n: nat)
    requires Get(props, "blogTitle") == Str(title)
    requires Get(props, "blogText") == Str(Repeat('B', n))
    requires TitleFits(title)
    ensures ValidateBlogPostFormData(Object(props)) <==> 2 <= n <= 10000
  {
    RepeatFits('B', n);
    AcceptedIff(props, title, Repeat('B', n));
  }

  // ---------------------------------------------------------------------------
  // The cases of the unit tests

  /** A string with no white space at its ends, on the Basic Multilingual
      Plane, has its own length as trimmed length. */
  lemma TrimmedLengthOfPlain(s: string)
    requires NoWhiteSpaceAtEnds(s) && AllBmp(s)
    ensures Utf16Length(Trim(s)) == |s|
  {
    TrimOfTrimmed(s);
    Utf16LengthOfBmp(s);
  }

  /** "Hi" and "OK", the unit tests' two-character fields, fit. */
  lemma TwoCharTitleFits()
    ensures TitleFits("Hi")
  {
    TrimmedLengthOfPlain("Hi");
  }

  lemma TwoCharTextFits()
    ensures TextFits("OK")
  {
    TrimmedLengthOfPlain("OK");
  }

  /** The unit tests' form of minimum length is accepted. */
  lemma MinimumLengthExampleAccepted(submitType: JsValue)
    ensures ValidateBlogPostFormData(BlogPostForm(Str("123"), Str("Hi"), Str("OK"), submitType))
  {
    TwoCharTitleFits();
    TwoCharTextFits();
    FormVerdict(Str("123"), "Hi", "OK", submitType);
  }

  /** The unit tests' forms with a title or text that is not a string, and
      the missing forms, are rejected. */
  lemma NonStringExamplesRejected(submitType: JsValue)
    ensures !ValidateBlogPostFormData(BlogPostForm(Str("123"), Number(12345.0), Str("Valid text"), submitType))
    ensures !ValidateBlogPostFormData(BlogPostForm(Str("123"), Str("Valid title"), Null, submitType))
    ensures !ValidateBlogPostFormData(Undefined)
    ensures !ValidateBlogPostFormData(Null)
  {
    NonStringFieldRejected(BlogPostForm(Str("123"), Number(12345.0), Str("Valid text"), submitType).props);
    NonStringFieldRejected(BlogPostForm(Str("123"), Str("Valid title"), Null, submitType).props);
    NonObjectRejected(Undefined);
    NonObjectRejected(Null);
  }

  /** The unit tests' empty title and empty text are rejected. */
  lemma EmptyExamplesRejected(submitType: JsValue)
    ensures !ValidateBlogPostFormData(BlogPostForm(Str("123"), Str(""), Str("Valid text"), submitType))
    ensures !ValidateBlogPostFormData(BlogPostForm(Str("123"), Str("Valid title"), Str(""), submitType))
  {
    FormVerdict(Str("123"), "", "Valid text", submitType);
    FormVerdict(Str("123"), "Valid title", "", submitType);
  }

  /** "Valid text", the unit tests' companion text, fits. */
  lemma CompanionTextFits()
    ensures TextFits("Valid text")
  {
    TrimmedLengthOfPlain("Valid text");
  }

  /** "Valid title", the unit tests' companion title, fits. */
  lemma CompanionTitleFits()
    ensures TitleFits("Valid title")
  {
    TrimmedLengthOfPlain("Valid title");
  }

  /** The unit tests' one-letter title is rejected. */
  lemma OneLetterTitleRejected(submitType: JsValue)
    ensures !ValidateBlogPostFormData(BlogPostForm(Str("123"), Str("A"), Str("Valid text"), submitType))
  {
    TrimmedLengthOfPlain("A");
    FormVerdict(Str("123"), "A", "Valid text", submitType);
  }

  /** The unit tests' one-letter text is rejected. */
  lemma OneLetterTextRejected(submitType: JsValue)
    ensures !ValidateBlogPostFormData(BlogPostForm(Str("123"), Str("Valid title"), Str("X"), submitType))
  {
    TrimmedLengthOfPlain("X");
    FormVerdict(Str("123"), "Valid title", "X", submitType);
  }

  /** The unit tests' title of 201 letters is rejected. */
  lemma LongTitleRejected(submitType: JsValue)
    ensures !ValidateBlogPostFormData(BlogPostForm(Str("123"), Str(Repeat('A', 201)), Str("Valid text"), submitType))
  {
    CompanionTextFits();
    TitleLengthBoundary(BlogPostForm(Str("123"), Str(Repeat('A', 201)), Str("Valid text"), submitType).props,
                        201, "Valid text");
  }

  /** The unit tests' text of 10001 letters is rejected. */
  lemma LongTextRejected(submitType: JsValue)
    ensures !ValidateBlogPostFormData(BlogPostForm(Str("123"), Str("Valid title"), Str(Repeat('B', 10001)), submitType))
  {
    CompanionTitleFits();
    TextLengthBoundary(BlogPostForm(Str("123"), Str("Valid title"), Str(Repeat('B', 10001)), submitType).props,
                       "Valid title", 10001);
  }
}
