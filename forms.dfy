/**
  The two forms of the posts app: the post form (text, group, image) and the
  comment form (text only). Both clean their text the way the framework's
  text field does (surrounding whitespace stripped, a null character refused,
  an empty result refused), and the comment form adds its minimum-length rule.
  Saving a form writes the form's own columns and no other.
*/
module Forms {
  import opened Wrappers
  import opened Models

  // ---------------------------------------------------------------------------
  // Columns and the columns a form exposes

  /** The columns of the posts table. */
  datatype PostField = PkField | TextField | PubDateField | AuthorField | GroupField | ImageField

  /** The columns of the comments table. */
  datatype CommentField = CommentPkField | CommentPostField | CommentAuthorField | CommentTextField | CreatedField

  /** The post form's `Meta.fields`. */
  const PostFormFields: set<PostField> := {TextField, GroupField, ImageField}

  /** The comment form's `Meta.fields`. */
  const CommentFormFields: set<CommentField> := {CommentTextField}

  /** Whether `a` and `b` hold the same value in column `f`. */
  predicate SamePostField(a: Post, b: Post, f: PostField) {
    match f
    case PkField => a.id == b.id
    case TextField => a.text == b.text
    case PubDateField => a.pubDate == b.pubDate
    case AuthorField => a.author == b.author
    case GroupField => a.group == b.group
    case ImageField => a.image == b.image
  }

  predicate SameCommentField(a: Comment, b: Comment, f: CommentField) {
    match f
    case CommentPkField => a.id == b.id
    case CommentPostField => a.post == b.post
    case CommentAuthorField => a.author == b.author
    case CommentTextField => a.text == b.text
    case CreatedField => a.created == b.created
  }

  /** The columns are the whole row: posts that agree in every column are the same post. */
  lemma PostFieldsDeterminePost(a: Post, b: Post)
    requires forall f :: SamePostField(a, b, f)
    ensures a == b
  {
    assert SamePostField(a, b, PkField) && SamePostField(a, b, TextField) && SamePostField(a, b, PubDateField);
    assert SamePostField(a, b, AuthorField) && SamePostField(a, b, GroupField) && SamePostField(a, b, ImageField);
  }

  /** Comments that agree in every column are the same comment. */
  lemma CommentFieldsDetermineComment(a: Comment, b: Comment)
    requires forall f :: SameCommentField(a, b, f)
    ensures a == b
  {
    assert SameCommentField(a, b, CommentPkField) && SameCommentField(a, b, CommentPostField);
    assert SameCommentField(a, b, CommentAuthorField) && SameCommentField(a, b, CommentTextField);
    assert SameCommentField(a, b, CreatedField);
  }

  // ---------------------------------------------------------------------------
  // Whitespace stripping, as the framework's text field does it with `str.strip`

  /** Python's `str.isspace` on one character: the characters `str.strip` removes. */
  predicate IsSpace(c: char) {
    ('\t' <= c <= '\r') || ('\U{1C}' <= c <= '\U{1F}') || c == ' ' || c == '\U{85}' || c == '\U{A0}' ||
    c == '\U{1680}' || ('\U{2000}' <= c <= '\U{200A}') || c == '\U{2028}' || c == '\U{2029}' ||
    c == '\U{202F}' || c == '\U{205F}' || c == '\U{3000}'
  }

  /** `s` without its leading whitespace. */
  function TrimStart(s: string): (r: string)
    ensures |r| <= |s|
    ensures forall k :: 0 <= k < |s| - |r| ==> IsSpace(s[k])
    ensures r != [] ==> !IsSpace(r[0])
  {
    if s != [] && IsSpace(s[0]) then TrimStart(s[1..]) else s
  }

  /** `s` without its trailing whitespace. */
  function TrimEnd(s: string): (r: string)
    ensures |r| <= |s|
    ensures forall k :: |r| <= k < |s| ==> IsSpace(s[k])
    ensures r != [] ==> !IsSpace(r[|r| - 1])
  {
    if s != [] && IsSpace(s[|s| - 1]) then TrimEnd(s[..|s| - 1]) else s
  }

  /** What `TrimStart` leaves is the end of the text. */
  lemma {:induction false} TrimStartIsSuffix(s: string)
    ensures TrimStart(s) == s[|s| - |TrimStart(s)|..]
  {
    if s != [] && IsSpace(s[0]) {
      TrimStartIsSuffix(s[1..]);
      assert s[1..][|s| - 1 - |TrimStart(s)|..] == s[|s| - |TrimStart(s)|..];
    }
  }

  /** What `TrimEnd` leaves is the start of the text. */
  lemma {:induction false} TrimEndIsPrefix(s: string)
    ensures TrimEnd(s) == s[..|TrimEnd(s)|]
  {
    if s != [] && IsSpace(s[|s| - 1]) {
      TrimEndIsPrefix(s[..|s| - 1]);
      assert s[..|s| - 1][..|TrimEnd(s)|] == s[..|TrimEnd(s)|];
    }
  }

  /**
    `s.strip()`: what remains starts and ends with a non-space character, and
    nothing remains exactly when `s` is whitespace only.
  */
  function Strip(s: string): (r: string)
    ensures |r| <= |s|
    ensures r != [] ==> !IsSpace(r[0]) && !IsSpace(r[|r| - 1])
    ensures r == [] <==> forall k :: 0 <= k < |s| ==> IsSpace(s[k])
    ensures forall c :: c in r ==> c in s
  {
    TrimBothEnds(s);
    TrimStartIsSuffix(s);
    TrimEndIsPrefix(TrimStart(s));
    TrimEnd(TrimStart(s))
  }

  lemma TrimBothEnds(s: string)
    ensures var r := TrimEnd(TrimStart(s));
      (r != [] ==> !IsSpace(r[0])) && (r == [] <==> forall k :: 0 <= k < |s| ==> IsSpace(s[k]))
  {
    var t := TrimStart(s);
    var r := TrimEnd(t);
    TrimEndIsPrefix(t);
    if r != [] {
      assert r[0] == t[0];
    }
  }

  /** A text with no whitespace at either end is kept as it is. */
  lemma StripKeepsTrimmed(s: string)
    requires s != [] ==> !IsSpace(s[0]) && !IsSpace(s[|s| - 1])
    ensures Strip(s) == s
  {
  }

  /** Stripping twice strips once. */
  lemma StripIdempotent(s: string)
    ensures Strip(Strip(s)) == Strip(s)
  {
    StripKeepsTrimmed(Strip(s));
  }

  /** Whitespace in front of a text is lost: it does not count towards anything. */
  lemma {:induction false} TrimStartSkipsPadding(pad: string, t: string)
    requires forall c :: c in pad ==> IsSpace(c)
    ensures TrimStart(pad + t) == TrimStart(t)
    decreases |pad|
  {
    if pad != [] {
      var s := pad + t;
      assert s[0] == pad[0] && IsSpace(s[0]);
      assert TrimStart(s) == TrimStart(s[1..]);
      assert s[1..] == pad[1..] + t;
      TrimStartSkipsPadding(pad[1..], t);
    } else {
      assert pad + t == t;
    }
  }

  // ---------------------------------------------------------------------------
  // Cleaning a submitted text

  datatype FormError =
    | Required       // the text is missing or whitespace only
    | NullCharacter  // the text holds a null character
    | TextTooShort   // `clean_text` refuses it

  /**
    The framework's cleaning of a required text field: the text is stripped;
    an empty result is refused, and so is a text holding a null character.
  */
  function CleanTextField(raw: string): (r: Result<string, FormError>)
    ensures r.Ok? <==> Strip(raw) != [] && '\0' !in raw
    ensures r.Ok? ==> r.value == Strip(raw)
  {
    var s := Strip(raw);
    if s == [] then Err(Required)
    else if '\0' in s then Err(NullCharacter)
    else
      assert '\0' in raw ==> '\0' in s by {
        if '\0' in raw {
          var k :| 0 <= k < |raw| && raw[k] == '\0';
          assert !IsSpace(raw[k]);
          StripKeepsNonSpace(raw, k);
        }
      }
      Ok(s)
  }

  /** Stripping removes whitespace only: every other character of the text survives it. */
  lemma StripKeepsNonSpace(s: string, k: nat)
    requires k < |s| && !IsSpace(s[k])
    ensures s[k] in Strip(s)
  {
    var t := TrimStart(s);
    var i := |s| - |t|;
    TrimStartIsSuffix(s);
    TrimEndIsPrefix(t);
    assert k >= i;
    assert t[k - i] == s[k];
    var r := TrimEnd(t);
    assert k - i < |r|;
    assert r[k - i] == s[k];
  }

  /**
    `CommentForm.clean_text`, applied to the already cleaned text: a text of
    at most `numOfLetters` characters is refused; a longer one is returned as
    it is.
  */
  function CleanText(text: string, numOfLetters: nat): (r: Result<string, FormError>)
    ensures r.Ok? <==> |text| > numOfLetters
    ensures r.Ok? ==> r.value == text
    ensures r.Err? ==> r.error == TextTooShort
  {
    if |text| <= numOfLetters then Err(TextTooShort) else Ok(text)
  }

  /** The comment form's text, cleaned by the field and then by `clean_text`. */
  function CleanComment(raw: string, numOfLetters: nat): (r: Result<string, FormError>)
    ensures r.Ok? <==> '\0' !in raw && |Strip(raw)| > numOfLetters
    ensures r.Ok? ==> r.value == Strip(raw)
  {
    match CleanTextField(raw)
    case Err(e) => Err(e)
    case Ok(t) => CleanText(t, numOfLetters)
  }

  /**
    Whether the comment form accepts the submitted text: `None` when the request
    carries no text at all (an unbound form, or a missing field).
  */
  predicate CommentFormValid(text: Option<string>, numOfLetters: nat) {
    text.Some? && CleanComment(text.value, numOfLetters).Ok?
  }

  /** The bound is inclusive: a text of exactly `numOfLetters` characters is refused. */
  lemma CleanTextBoundary(numOfLetters: nat, text: string)
    requires |text| == numOfLetters
    ensures CleanText(text, numOfLetters).Err?
    ensures CleanText(text + [' '], numOfLetters) == Ok(text + [' '])
  {
  }

  /** The outcome of `clean_text` depends on the length alone, not on which characters are written. */
  lemma CleanTextDependsOnLength(t1: string, t2: string, numOfLetters: nat)
    requires |t1| == |t2|
    ensures CleanText(t1, numOfLetters).Ok? == CleanText(t2, numOfLetters).Ok?
  {
  }

  /** Leading whitespace does not help a comment pass the minimum length: it is stripped first. */
  lemma CommentPaddingDoesNotCount(pad: string, t: string, numOfLetters: nat)
    requires forall c :: c in pad ==> IsSpace(c)
    ensures CleanComment(pad + t, numOfLetters) == CleanComment(t, numOfLetters)
  {
    TrimStartSkipsPadding(pad, t);
    assert '\0' in pad + t ==> '\0' in t by {
      if '\0' in pad + t {
        var k :| 0 <= k < |pad + t| && (pad + t)[k] == '\0';
        assert k >= |pad|;
        assert t[k - |pad|] == '\0';
      }
    }
  }

  // ---------------------------------------------------------------------------
  // The post form

  /**
    What the browser sends for the image field: no file, the "clear" box
    ticked, or a new file, stored at `path`. A new file together with the
    ticked box is a contradiction the framework refuses; that refusal is part
    of `imageValid`.
  */
  datatype ImageInput = NoUpload | ClearImage | Upload(path: Image)

  /**
    `ImageField.clean(data, initial)`: the image the row holds after saving,
    given the one it holds now. Without a new file the current image stays.
  */
  function CleanedImage(input: ImageInput, current: Option<Image>): (r: Option<Image>)
    ensures input.NoUpload? ==> r == current
    ensures input.ClearImage? ==> r.None?
    ensures input.Upload? ==> r == Some(input.path)
  {
    match input
    case NoUpload => current
    case ClearImage => None
    case Upload(path) => Some(path)
  }

  /** A submitted post form: the raw text, the chosen group and what was sent for the image. */
  datatype PostInput = PostInput(text: string, group: Option<GroupId>, image: ImageInput)

  /**
    Whether the post form accepts `input`. The text must survive the text
    field's cleaning; `imageValid` stands for the framework's image check (no
    file, or one that decodes as an image); the group choice must name an
    existing group. No length rule is applied to the text of a post.
  */
  predicate PostFormValid(input: PostInput, imageValid: bool, groupIds: set<GroupId>) {
    CleanTextField(input.text).Ok? && imageValid && (input.group.None? || input.group.value in groupIds)
  }

  /**
    The post form has no minimum length of its own: any two texts that the
    text field accepts, the one-letter text among them, get the same verdict.
  */
  lemma PostFormHasNoLengthRule(input: PostInput, imageValid: bool, groupIds: set<GroupId>, t1: string, t2: string)
    requires CleanTextField(t1).Ok? && CleanTextField(t2).Ok?
    ensures PostFormValid(input.(text := t1), imageValid, groupIds) == PostFormValid(input.(text := t2), imageValid, groupIds)
    ensures PostFormValid(input.(text := "x"), imageValid, groupIds) == PostFormValid(input.(text := t1), imageValid, groupIds)
  {
    StripKeepsTrimmed("x");
  }

  /** `form.save()` on the row `p`: the post form writes its own columns from the cleaned data, and no other. */
  function SavePost(input: PostInput, p: Post): (r: Post)
    ensures forall f :: f !in PostFormFields ==> SamePostField(r, p, f)
    ensures r.text == Strip(input.text) && r.group == input.group && r.image == CleanedImage(input.image, p.image)
  {
    p.(text := Strip(input.text), group := input.group, image := CleanedImage(input.image, p.image))
  }

  /** Saving the same form twice gives the row saving it once gives. */
  lemma SavePostTwice(input: PostInput, p: Post)
    ensures SavePost(input, SavePost(input, p)) == SavePost(input, p)
  {
    StripIdempotent(input.text);
  }

  /** `form.save()` on the comment row `c` with the cleaned text: only the text column is written. */
  function SaveComment(text: string, c: Comment): (r: Comment)
    ensures forall f :: f !in CommentFormFields ==> SameCommentField(r, c, f)
    ensures r.text == text
  {
    c.(text := text)
  }
}
