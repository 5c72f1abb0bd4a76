/**
 * The profile rules of the Django backend: the field validators of
 * `UserProfileUpdateSerializer`, the image URL of `UserSerializer`
 * (profile/serializers.py), and the upload path and `full_name` of the
 * custom user model (profile/models.py).
 */
module ProfileRules {
  import opened Wrappers
  import opened Text
  import opened Seqs
  import Accounts

  /** A validator either returns the (possibly cleaned) value or raises with a message. */
  datatype Checked<T> = Valid(value: T) | Invalid(message: string)

  // ------------------------------------------------------------ username

  /** Another account than `selfId` holds exactly `name`. */
  predicate TakenByOther(users: seq<Accounts.Account>, selfId: nat, name: string)
  {
    exists a :: a in users && a.id != selfId && a.username == name
  }

  /**
   * `validate_username`: a blank value is refused, uniqueness among the
   * other accounts is tested on the value it receives, and the stripped
   * value is returned.
   */
  function ValidateUsername(users: seq<Accounts.Account>, selfId: nat, value: string): (r: Checked<string>)
    ensures r.Valid? <==> !IsBlank(value) && !TakenByOther(users, selfId, value)
    ensures r.Valid? ==> r.value == PyStrip(value) && |r.value| > 0
    ensures r.Invalid? ==> r.message == "Username cannot be empty." || r.message == "This username is already taken."
  {
    if IsBlank(value) then Invalid("Username cannot be empty.")
    else if TakenByOther(users, selfId, value) then Invalid("This username is already taken.")
    else Valid(PyStrip(value))
  }

  /**
   * The serializer field Django REST framework derives from the model's
   * unique `username`: a blank value is refused, whitespace is trimmed,
   * the trimmed value must be free among the other accounts (the
   * `UniqueValidator`, whose queryset leaves out the instance being
   * edited), and only then does `validate_username` run.
   */
  function UsernameField(users: seq<Accounts.Account>, selfId: nat, raw: string): (r: Checked<string>)
    ensures r.Valid? <==> !IsBlank(raw) && !TakenByOther(users, selfId, PyStrip(raw))
    ensures r.Valid? ==> r.value == PyStrip(raw) && |r.value| > 0
    ensures IsBlank(raw) ==> r == Invalid("This field may not be blank.")
    ensures !IsBlank(raw) && TakenByOther(users, selfId, PyStrip(raw)) ==> r == Invalid("A user with that username already exists.")
  {
    if IsBlank(raw) then Invalid("This field may not be blank.")
    else
      var v := PyStrip(raw);
      if TakenByOther(users, selfId, v) then Invalid("A user with that username already exists.")
      else
        StripStripped(v);
        ValidateUsername(users, selfId, v)
  }

  /** The validator only ever receives a trimmed value, so it tests the value that is stored. */
  lemma ValidatorSeesStoredValue(users: seq<Accounts.Account>, selfId: nat, raw: string)
    requires !IsBlank(raw) && !TakenByOther(users, selfId, PyStrip(raw))
    ensures ValidateUsername(users, selfId, PyStrip(raw)) == Valid(PyStrip(raw))
  {
    StripStripped(PyStrip(raw));
  }

  /** An accepted name is held by no other account. */
  lemma ValidUsernameIsFree(users: seq<Accounts.Account>, selfId: nat, raw: string)
    requires UsernameField(users, selfId, raw).Valid?
    ensures forall a :: a in users && a.id != selfId ==> a.username != UsernameField(users, selfId, raw).value
  {
  }

  /** Another account's name padded with a space is trimmed and refused as taken. */
  lemma PaddedNameRefused(users: seq<Accounts.Account>, selfId: nat, other: Accounts.Account)
    requires other in users && other.id != selfId
    requires |other.username| > 0 && !IsPySpace(other.username[0]) && !IsPySpace(other.username[|other.username| - 1])
    ensures UsernameField(users, selfId, other.username + " ") == Invalid("A user with that username already exists.")
  {
    var n := other.username;
    StripPaddedRight(n, ' ');
    assert n + " " == n + [' '];
    StripStripped(n);
    BlankIffAllSpace(n);
  }

  /** A user may keep their own name. */
  lemma OwnNameAllowed(users: seq<Accounts.Account>, me: Accounts.Account)
    requires me in users && !IsBlank(me.username)
    requires PyStrip(me.username) == me.username
    requires forall a :: a in users && a.username == me.username ==> a.id == me.id
    ensures UsernameField(users, me.id, me.username) == Valid(me.username)
  {
  }

  // --------------------------------------------------------------- names

  /** The rule `validate_first_name` and `validate_last_name` share: None passes; blank is refused with `message`; otherwise stripped. */
  function ValidateName(value: Option<string>, message: string): (r: Checked<Option<string>>)
    ensures value.None? ==> r == Valid(None)
    ensures value.Some? && IsBlank(value.value) ==> r == Invalid(message)
    ensures value.Some? && !IsBlank(value.value) ==> r == Valid(Some(PyStrip(value.value)))
    ensures r.Valid? && r.value.Some? ==> !IsBlank(r.value.value)
  {
    match value
    case None => Valid(None)
    case Some(v) =>
      if IsBlank(v) then Invalid(message)
      else
        var s := PyStrip(v);
        StripStripped(s);
        Valid(Some(s))
  }

  /** `validate_first_name`. */
  function ValidateFirstName(value: Option<string>): (r: Checked<Option<string>>)
    ensures value.None? ==> r == Valid(None)
    ensures r.Invalid? <==> value.Some? && IsBlank(value.value)
    ensures r.Invalid? ==> r.message == "First name cannot be empty."
    ensures r.Valid? && value.Some? ==> r.value == Some(PyStrip(value.value))
  {
    ValidateName(value, "First name cannot be empty.")
  }

  /** `validate_last_name`. */
  function ValidateLastName(value: Option<string>): (r: Checked<Option<string>>)
    ensures value.None? ==> r == Valid(None)
    ensures r.Invalid? <==> value.Some? && IsBlank(value.value)
    ensures r.Invalid? ==> r.message == "Last name cannot be empty."
    ensures r.Valid? && value.Some? ==> r.value == Some(PyStrip(value.value))
  {
    ValidateName(value, "Last name cannot be empty.")
  }

  /** Validating an accepted name again changes nothing. */
  lemma NameValidationIdempotent(value: Option<string>, message: string)
    requires ValidateName(value, message).Valid?
    ensures ValidateName(ValidateName(value, message).value, message) == ValidateName(value, message)
  {
    if value.Some? {
      StripStripped(PyStrip(value.value));
    }
  }

  // --------------------------------------------------------------- phone

  predicate IsPhoneFiller(c: char)
  {
    c == ' ' || c == '-' || c == '(' || c == ')'
  }

  function KeepsDigits(): char -> bool
  {
    (c: char) => !IsPhoneFiller(c)
  }

  /** The phone with spaces, dashes and parentheses removed. */
  function Cleaned(phone: string): (r: string)
    ensures |r| <= |phone|
    ensures forall k :: 0 <= k < |r| ==> !IsPhoneFiller(r[k])
    ensures forall c :: c in r <==> c in phone && !IsPhoneFiller(c)
    ensures forall c :: multiset(r)[c] == if IsPhoneFiller(c) then 0 else multiset(phone)[c]
  {
    Filter(KeepsDigits(), phone)
  }

  const PhoneMax := 20

  /** `validate_phone`: refused when more than 20 characters remain after cleaning; otherwise returned as sent. */
  function ValidatePhone(value: Option<string>): (r: Checked<Option<string>>)
    ensures r.Valid? ==> r.value == value
    ensures r.Invalid? <==> value.Some? && |value.value| > 0 && |Cleaned(value.value)| > PhoneMax
  {
    if value.Some? && |value.value| > 0 && |Cleaned(value.value)| > PhoneMax then Invalid("Phone number is too long.")
    else Valid(value)
  }

  /** Formatting characters never count: padding a phone with them does not change the verdict. */
  lemma FillerDoesNotCount(phone: string, filler: string)
    requires |phone| > 0
    requires forall k :: 0 <= k < |filler| ==> IsPhoneFiller(filler[k])
    ensures ValidatePhone(Some(phone + filler)).Valid? <==> ValidatePhone(Some(phone)).Valid?
  {
    FilterAppend(KeepsDigits(), phone, filler);
    assert Filter(KeepsDigits(), filler) == [];
  }

  // ------------------------------------------------------------- website

  /** `validate_website`: a non-empty value must start with `http://` or `https://`. */
  function ValidateWebsite(value: Option<string>): (r: Checked<Option<string>>)
    ensures r.Valid? ==> r.value == value
    ensures r.Invalid? <==>
      value.Some? && |value.value| > 0 && !StartsWith(value.value, "http://") && !StartsWith(value.value, "https://")
  {
    if value.Some? && |value.value| > 0 && !StartsWith(value.value, "http://") && !StartsWith(value.value, "https://") then
      Invalid("Website must start with http:// or https://")
    else Valid(value)
  }

  /** Any value behind one of the two schemes is accepted as it is. */
  lemma SchemePrefixAccepted(scheme: string, rest: string)
    requires scheme == "http://" || scheme == "https://"
    ensures ValidateWebsite(Some(scheme + rest)) == Valid(Some(scheme + rest))
  {
    assert (scheme + rest)[..|scheme|] == scheme;
  }

  /** A refused website is non-empty and has neither scheme as a prefix. */
  lemma RefusedWebsiteHasNoScheme(value: string, rest: string)
    requires ValidateWebsite(Some(value)).Invalid?
    ensures value != "http://" + rest && value != "https://" + rest
  {
    if value == "http://" + rest { SchemePrefixAccepted("http://", rest); }
    if value == "https://" + rest { SchemePrefixAccepted("https://", rest); }
  }

  // --------------------------------------------------------------- image

  /** An uploaded file; it is truthy when it has a name. */
  datatype Upload = Upload(name: string, size: int, contentType: string)

  const MaxImageBytes := 5 * 1024 * 1024

  const AllowedTypes := ["image/jpeg", "image/jpg", "image/png", "image/gif", "image/webp"]

  /** `validate_profile_image`: the size limit first, then the content type. */
  function ValidateImage(value: Option<Upload>): (r: Checked<Option<Upload>>)
    ensures r.Valid? ==> r.value == value
    ensures r.Valid? <==>
      (value.None? || value.value.name == "" || (value.value.size <= MaxImageBytes && value.value.contentType in AllowedTypes))
    ensures value.Some? && value.value.name != "" && value.value.size > MaxImageBytes ==>
      r == Invalid("Image file size cannot exceed 5MB.")
  {
    match value
    case None => Valid(None)
    case Some(f) =>
      if f.name == "" then Valid(value)
      else if f.size > MaxImageBytes then Invalid("Image file size cannot exceed 5MB.")
      else if f.contentType !in AllowedTypes then Invalid("Only JPEG, PNG, GIF, and WebP images are allowed.")
      else Valid(value)
  }

  /** Exactly five megabytes is still accepted. */
  lemma FiveMegabytesAccepted(name: string)
    requires name != ""
    ensures ValidateImage(Some(Upload(name, MaxImageBytes, "image/png"))).Valid?
  {
  }

  /** The size is checked first: an oversized upload gets the size message whatever its type. */
  lemma SizeBeatsType(f: Upload, t1: string, t2: string)
    requires f.name != "" && f.size > MaxImageBytes
    ensures ValidateImage(Some(f.(contentType := t1))) == ValidateImage(Some(f.(contentType := t2)))
  {
  }

  /** Within the limit, the content type alone decides. */
  lemma TypeDecidesWithinLimit(f: Upload)
    requires f.name != "" && f.size <= MaxImageBytes
    ensures ValidateImage(Some(f)).Valid? <==> f.contentType in AllowedTypes
  {
  }

  /** The stored image: its name (empty when none) and its media URL. */
  datatype StoredImage = StoredImage(name: string, url: string)

  /**
   * `get_profile_image_url`: no URL without an image; with a request the
   * URL is made absolute against the request's origin.
   */
  function ProfileImageUrl(image: StoredImage, origin: Option<string>): (r: Option<string>)
    ensures r.None? <==> image.name == ""
    ensures r.Some? && origin.None? ==> r.value == image.url
    ensures r.Some? && origin.Some? ==> r.value == origin.value + image.url
  {
    if image.name == "" then None
    else match origin
      case Some(o) => Some(o + image.url)
      case None => Some(image.url)
  }

  /** A request only puts its origin in front of the media URL. */
  lemma RequestOnlyPrependsOrigin(image: StoredImage, origin: string)
    requires image.name != ""
    ensures ProfileImageUrl(image, Some(origin)) == Some(origin + ProfileImageUrl(image, None).value)
  {
  }

  // --------------------------------------------------------- upload path

  /** `filename.split('.')[-1]`: the text after the last dot, or the whole name when there is none. */
  function Extension(filename: string): (ext: string)
    ensures '.' !in ext
    ensures |ext| <= |filename|
    ensures forall k :: 0 <= k < |ext| ==> ext[k] == filename[|filename| - |ext| + k]
    ensures |ext| < |filename| ==> filename[|filename| - |ext| - 1] == '.'
    decreases |filename|
  {
    if |filename| == 0 || filename[|filename| - 1] == '.' then ""
    else Extension(filename[..|filename| - 1]) + [filename[|filename| - 1]]
  }

  /** The extension of `base.ext` is `ext` whenever `ext` holds no dot. */
  lemma ExtensionOfDotted(base: string, ext: string)
    requires '.' !in ext
    ensures Extension(base + "." + ext) == ext
  {
    var pre := base + ".";
    assert base + "." + ext == pre + ext;
    ExtensionAfterDot(pre, ext);
  }

  lemma {:induction false} ExtensionAfterDot(pre: string, ext: string)
    requires |pre| > 0 && pre[|pre| - 1] == '.' && '.' !in ext
    ensures Extension(pre + ext) == ext
    decreases |ext|
  {
    var f := pre + ext;
    if |ext| == 0 {
      assert f == pre;
    } else {
      var front, last := ext[..|ext| - 1], ext[|ext| - 1];
      assert ext == front + [last];
      assert '.' !in front && last != '.';
      assert f == (pre + front) + [last];
      ExtensionAfterDot(pre, front);
      assert Extension(f) == Extension(pre + front) + [last];
    }
  }

  /** A name without a dot is its own extension. */
  lemma ExtensionWithoutDot(filename: string)
    requires '.' !in filename
    ensures Extension(filename) == filename
  {
    var e := Extension(filename);
  }

  /** The id as the f-string prints it; a user not yet saved has none. */
  function IdText(id: Option<nat>): (r: string)
    ensures id.Some? ==> r == NatToString(id.value)
    ensures id.None? ==> r == "None"
  {
    if id.Some? then NatToString(id.value) else "None"
  }

  const Folder := "profile_images/"

  /** The stored file name: the owner's id and the upload's extension. */
  function StoredName(id: Option<nat>, filename: string): string
  {
    "user_" + IdText(id) + ("_profile." + Extension(filename))
  }

  /** `user_profile_image_path`. The stored name never starts with `/`, so the join keeps the folder. */
  function ImagePath(id: Option<nat>, filename: string): (p: string)
    ensures StartsWith(p, Folder)
    ensures p[|Folder|..] == StoredName(id, filename)
  {
    Folder + StoredName(id, filename)
  }

  /** The stored file keeps the extension of the upload. */
  lemma PathKeepsExtension(id: Option<nat>, filename: string)
    ensures Extension(ImagePath(id, filename)) == Extension(filename)
  {
    var e := Extension(filename);
    var pre := Folder + ("user_" + IdText(id)) + "_profile.";
    assert ImagePath(id, filename) == pre + e;
    assert pre[|pre| - 1] == '.';
    ExtensionAfterDot(pre, e);
  }

  /** Nothing of the uploaded name but its extension reaches the path. */
  lemma PathKeepsOnlyExtension(id: Option<nat>, f: string, g: string)
    requires Extension(f) == Extension(g)
    ensures ImagePath(id, f) == ImagePath(id, g)
  {
  }

  /** Two saved users never share an upload path. */
  lemma PathsOfUsersDiffer(a: nat, b: nat, f: string, g: string)
    requires a != b
    ensures ImagePath(Some(a), f) != ImagePath(Some(b), g)
  {
    if ImagePath(Some(a), f) == ImagePath(Some(b), g) {
      PrefixCancel(Folder, StoredName(Some(a), f), StoredName(Some(b), g));
      DigitsAfterTag("user_", NatToString(a), "_profile." + Extension(f), NatToString(b), "_profile." + Extension(g));
      NatToStringInjective(a, b);
    }
  }

  lemma PrefixCancel(p: string, u: string, v: string)
    requires p + u == p + v
    ensures u == v
  {
    assert u == (p + u)[|p|..];
    assert v == (p + v)[|p|..];
  }

  /** A run of digits between a fixed tag and a `_` is determined by the string. */
  lemma DigitsAfterTag(tag: string, d1: string, x1: string, d2: string, x2: string)
    requires IsDigits(d1) && IsDigits(d2)
    requires |x1| > 0 && x1[0] == '_' && |x2| > 0 && x2[0] == '_'
    requires tag + d1 + x1 == tag + d2 + x2
    ensures d1 == d2
  {
    var s := tag + d1 + x1;
    var t := tag + d2 + x2;
    assert s[|tag| + |d1|] == '_';
    assert t[|tag| + |d2|] == '_';
    assert forall k :: 0 <= k < |d1| ==> s[|tag| + k] == d1[k];
    assert forall k :: 0 <= k < |d2| ==> t[|tag| + k] == d2[k];
    assert |d1| == |d2|;
    assert d1 == s[|tag|..|tag| + |d1|];
    assert d2 == t[|tag|..|tag| + |d2|];
  }

  // ----------------------------------------------------------- full name

  /** `CustomUser.full_name`: "first last" without outer whitespace, or the username when that is empty. */
  function FullName(first: string, last: string, username: string): (r: string)
    ensures PyStrip(first + " " + last) != "" ==> r == PyStrip(first + " " + last)
    ensures PyStrip(first + " " + last) == "" ==> r == username
  {
    var s := PyStrip(first + " " + last);
    if s != "" then s else username
  }

  /** Both names blank: the username stands in. */
  lemma BlankNamesGiveUsername(first: string, last: string, username: string)
    requires IsBlank(first) && IsBlank(last)
    ensures FullName(first, last, username) == username
  {
    var s := first + " " + last;
    BlankIffAllSpace(first);
    BlankIffAllSpace(last);
    forall k | 0 <= k < |s| ensures IsPySpace(s[k]) {
      if k < |first| { assert s[k] == first[k]; }
      else if k > |first| { assert s[k] == last[k - |first| - 1]; }
    }
    BlankIffAllSpace(s);
  }

  /** Only a first name: that name, with no trailing space. */
  lemma OnlyFirstName(first: string, username: string)
    requires !IsBlank(first)
    ensures FullName(first, "", username) == PyStrip(first)
  {
    assert first + " " + "" == first + [' '];
    StripPaddedRight(first, ' ');
  }

  /** Only a last name: that name, with no leading space. */
  lemma OnlyLastName(last: string, username: string)
    requires !IsBlank(last)
    ensures FullName("", last, username) == PyStrip(last)
  {
    assert "" + " " + last == [' '] + last;
    StripPaddedLeft(last, ' ');
  }

  /** Two clean names are joined by exactly one space. */
  lemma CleanNamesJoined(first: string, last: string, username: string)
    requires |first| > 0 && !IsPySpace(first[0]) && !IsPySpace(first[|first| - 1])
    requires |last| > 0 && !IsPySpace(last[0]) && !IsPySpace(last[|last| - 1])
    ensures FullName(first, last, username) == first + " " + last
  {
    var s := first + " " + last;
    assert s[0] == first[0] && s[|s| - 1] == last[|last| - 1];
    StripStripped(s);
  }
}
