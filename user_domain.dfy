/** The endpoints of the logged-in user: the details update, the contacts
    update and the profile-picture upload. The caller is the document the
    token loader put in `g.current_user`, passed in as a value. */
module UserDomain {

  import opened Common
  import opened Calendar
  import opened Config
  import opened BaseDocument
  import opened UserModel
  import opened Users

  // ----- PUT /user -----

  const INVALID_DATE_MSG: string := "invalid date format, use YYYY-MM-DD"
  const UPDATE_FAILED_MSG: string := "user update failed"

  /** `{'_id': id}`. */
  function IdAnswer(id: string): (r: Response)
    ensures r.status == 200 && r.body == JObj(map["_id" := JStr(id)])
  {
    Response(200, JObj(map["_id" := JStr(id)]))
  }

  /** `put_user`. `strptime` is `datetime.strptime(_, '%Y-%m-%d')`, `None`
      where it raises `ValueError`. The three details are written together
      by one `modify()`: a name the update refuses (`ChangeError`) raises a
      ValidationError, which is not caught (Flask answers 500), and nothing
      is written; otherwise the update fails when the caller's document is
      gone. */
  method PutUser(store: UserStore, current: User, first: string, last: string, dateOfBirth: string,
                 strptime: string -> Option<Instant>)
    returns (r: Result<Response, Exception>)
    requires store.Valid()
    modifies store
    ensures store.Valid()
    ensures strptime(dateOfBirth).None? ==> r == Ok(Msg(400, INVALID_DATE_MSG)) && store.users == old(store.users)
    ensures strptime(dateOfBirth).Some? && (|first| > NAME_MAX || |last| > NAME_MAX) ==>
      r == Err(ValidationError(TOO_LONG_MSG)) && store.users == old(store.users)
    ensures strptime(dateOfBirth).Some? && |first| <= NAME_MAX && |last| <= NAME_MAX ==>
      && store.users == Modified(old(store.users), current.id, SetDetails(UserDetails(Some(first), Some(last), strptime(dateOfBirth))))
      && (First(old(store.users), ById(current.id)).Some? ==> r == Ok(IdAnswer(current.id)))
      && (First(old(store.users), ById(current.id)).None? ==> r == Ok(Msg(500, UPDATE_FAILED_MSG)))
  {
    var dob := strptime(dateOfBirth);
    if dob.None? {
      return Ok(Msg(400, INVALID_DATE_MSG));
    }
    var modified := store.Modify(current.id, SetDetails(UserDetails(Some(first), Some(last), dob)));
    if modified.Err? {
      return Err(modified.error);
    }
    if !modified.value {
      return Ok(Msg(500, UPDATE_FAILED_MSG));
    }
    r := Ok(IdAnswer(current.id));
  }

  /** After the update the caller's document holds exactly the details sent,
      and nothing else of it or of any other document has changed. */
  lemma PutUserWritesDetails(users: seq<User>, k: nat, d: UserDetails)
    requires Unique(users) && k < |users|
    ensures var r := Modified(users, users[k].id, SetDetails(d));
      r[k] == users[k].(details := d) && forall i :: 0 <= i < |users| && i != k ==> r[i] == users[i]
  {
    FirstOfUnique(users, ById(users[k].id), k);
    forall i | 0 <= i < |users| && i != k
      ensures users[i].id != users[k].id
    {
      if i < k {
        assert Apart(users[i], users[k]);
      } else {
        assert Apart(users[k], users[i]);
      }
    }
  }

  // ----- POST /user/contacts -----

  /** The body of the request: its keys, in order, each with the contact
      text or `None` for a JSON null. */
  type ContactsBody = seq<(string, Option<string>)>

  const EMAIL_KEY: string := "email"
  const TELEGRAM_KEY: string := "telegram"

  /** The contact the email field holds after an entry with `value`. */
  function EmailFrom(value: Option<string>): Option<EmailContact> {
    if value.None? then None else Some(EmailContact(value.value))
  }

  function TelegramFrom(value: Option<string>): Option<TelegramContact> {
    if value.None? then None else Some(TelegramContact(value.value, None))
  }

  /** `user.contacts[key] = ...` for one entry: null clears the contact; a
      text becomes a new contact of the field's type, so a new Telegram
      contact has no chat id. Any other key is not a field of `Contacts`
      and raises `KeyError`. */
  function SetContact(c: Contacts, key: string, value: Option<string>): (r: Result<Contacts, Exception>)
    ensures r.Err? <==> key != EMAIL_KEY && key != TELEGRAM_KEY
    ensures r.Err? ==> r.error == KeyError(key)
  {
    if key == EMAIL_KEY then Ok(c.(email := EmailFrom(value)))
    else if key == TELEGRAM_KEY then Ok(c.(telegram := TelegramFrom(value)))
    else Err(KeyError(key))
  }

  /** The entries applied one after the other; the first bad key stops it. */
  function ApplyContacts(c: Contacts, body: ContactsBody): Result<Contacts, Exception> {
    if body == [] then Ok(c)
    else
      var before := ApplyContacts(c, body[..|body| - 1]);
      if before.Err? then before else SetContact(before.value, body[|body| - 1].0, body[|body| - 1].1)
  }

  /** The last entry of the body with `key`, if any. */
  predicate LastWith(body: ContactsBody, key: string, i: nat) {
    i < |body| && body[i].0 == key && forall j :: i < j < |body| ==> body[j].0 != key
  }

  /** A body with only the two known keys always applies. A field whose key
      the body does not carry is kept; one it carries takes the value of its
      last entry (a JSON object has one entry per key). */
  lemma ContactsUpdate(c: Contacts, body: ContactsBody)
    requires forall i :: 0 <= i < |body| ==> body[i].0 == EMAIL_KEY || body[i].0 == TELEGRAM_KEY
    ensures ApplyContacts(c, body).Ok?
    ensures (forall i :: 0 <= i < |body| ==> body[i].0 != EMAIL_KEY) ==> ApplyContacts(c, body).value.email == c.email
    ensures (forall i :: 0 <= i < |body| ==> body[i].0 != TELEGRAM_KEY) ==> ApplyContacts(c, body).value.telegram == c.telegram
    ensures forall i: nat :: LastWith(body, EMAIL_KEY, i) ==> ApplyContacts(c, body).value.email == EmailFrom(body[i].1)
    ensures forall i: nat :: LastWith(body, TELEGRAM_KEY, i) ==> ApplyContacts(c, body).value.telegram == TelegramFrom(body[i].1)
  {
    ContactsApply(c, body);
    EmailUpdate(c, body);
    TelegramUpdate(c, body);
  }

  /** Only the two known keys: every entry applies. */
  lemma {:induction false} ContactsApply(c: Contacts, body: ContactsBody)
    requires forall i :: 0 <= i < |body| ==> body[i].0 == EMAIL_KEY || body[i].0 == TELEGRAM_KEY
    ensures ApplyContacts(c, body).Ok?
  {
    if body != [] {
      ContactsApply(c, body[..|body| - 1]);
    }
  }

  /** The email field after the body: kept without an email entry, else the
      last one's value. */
  lemma {:induction false} EmailUpdate(c: Contacts, body: ContactsBody)
    requires forall i :: 0 <= i < |body| ==> body[i].0 == EMAIL_KEY || body[i].0 == TELEGRAM_KEY
    ensures ApplyContacts(c, body).Ok?
    ensures (forall i :: 0 <= i < |body| ==> body[i].0 != EMAIL_KEY) ==> ApplyContacts(c, body).value.email == c.email
    ensures forall i: nat :: LastWith(body, EMAIL_KEY, i) ==> ApplyContacts(c, body).value.email == EmailFrom(body[i].1)
  {
    ContactsApply(c, body);
    if body != [] {
      var init := body[..|body| - 1];
      EmailUpdate(c, init);
      var before := ApplyContacts(c, init).value;
      var after := ApplyContacts(c, body).value;
      assert after == SetContact(before, body[|body| - 1].0, body[|body| - 1].1).value;
      forall i: nat | LastWith(body, EMAIL_KEY, i)
        ensures after.email == EmailFrom(body[i].1)
      {
        if i < |init| {
          assert LastWith(init, EMAIL_KEY, i);
        }
      }
    }
  }

  /** The Telegram field after the body, in the same way. */
  lemma {:induction false} TelegramUpdate(c: Contacts, body: ContactsBody)
    requires forall i :: 0 <= i < |body| ==> body[i].0 == EMAIL_KEY || body[i].0 == TELEGRAM_KEY
    ensures ApplyContacts(c, body).Ok?
    ensures (forall i :: 0 <= i < |body| ==> body[i].0 != TELEGRAM_KEY) ==> ApplyContacts(c, body).value.telegram == c.telegram
    ensures forall i: nat :: LastWith(body, TELEGRAM_KEY, i) ==> ApplyContacts(c, body).value.telegram == TelegramFrom(body[i].1)
  {
    ContactsApply(c, body);
    if body != [] {
      var init := body[..|body| - 1];
      TelegramUpdate(c, init);
      var before := ApplyContacts(c, init).value;
      var after := ApplyContacts(c, body).value;
      assert after == SetContact(before, body[|body| - 1].0, body[|body| - 1].1).value;
      forall i: nat | LastWith(body, TELEGRAM_KEY, i)
        ensures after.telegram == TelegramFrom(body[i].1)
      {
        if i < |init| {
          assert LastWith(init, TELEGRAM_KEY, i);
        }
      }
    }
  }

  /** A body with a key that is not a contact field is refused at that key. */
  lemma {:induction false} UnknownContactKey(c: Contacts, body: ContactsBody, k: nat)
    requires k < |body| && body[k].0 != EMAIL_KEY && body[k].0 != TELEGRAM_KEY
    requires forall i :: 0 <= i < k ==> body[i].0 == EMAIL_KEY || body[i].0 == TELEGRAM_KEY
    ensures ApplyContacts(c, body) == Err(KeyError(body[k].0))
    decreases |body|
  {
    if k < |body| - 1 {
      UnknownContactKey(c, body[..|body| - 1], k);
    } else {
      ContactsApply(c, body[..k]);
      assert body[..|body| - 1] == body[..k];
    }
  }

  /** `ContactSchema().dump(...)`: the contact text only. */
  function ContactJson(text: string): Json {
    JObj(map["contact" := JStr(text)])
  }

  /** `user_contacts_schema.dump(contacts)`: both keys, a missing contact as
      null, and no chat id. */
  function ContactsJson(c: Contacts): (j: Json)
    ensures j.JObj? && j.fields.Keys == {EMAIL_KEY, TELEGRAM_KEY}
    ensures j.fields[EMAIL_KEY] == if c.email.Some? then ContactJson(c.email.value.contact) else JNull
    ensures j.fields[TELEGRAM_KEY] == if c.telegram.Some? then ContactJson(c.telegram.value.contact) else JNull
  {
    JObj(map[EMAIL_KEY := if c.email.Some? then ContactJson(c.email.value.contact) else JNull,
             TELEGRAM_KEY := if c.telegram.Some? then ContactJson(c.telegram.value.contact) else JNull])
  }

  function ContactsAnswer(c: Contacts): Response {
    Response(200, JObj(map["contacts" := ContactsJson(c)]))
  }

  /** `user_contacts_post`: the entries update the caller's contacts in
      place, key by key, and the document is saved; a bad key or a failing
      save raises, and the handler lets the exception escape. */
  method UserContactsPost(store: UserStore, current: User, body: ContactsBody, hashpw: string -> string, checkUrl: string -> Option<string>)
    returns (r: Result<Response, Exception>)
    requires store.Valid()
    modifies store
    ensures store.Valid()
    ensures ApplyContacts(current.contacts, body).Err? ==>
      r == Err(ApplyContacts(current.contacts, body).error) && store.users == old(store.users)
    ensures ApplyContacts(current.contacts, body).Ok? ==>
      var c := ApplyContacts(current.contacts, body).value;
      var o := SaveOutcome(old(store.users), current.(contacts := c), hashpw, checkUrl);
      && store.users == o.1
      && r == if o.0.Some? then Err(o.0.value) else Ok(ContactsAnswer(c))
  {
    var contacts := current.contacts;
    var i := 0;
    while i < |body|
      invariant 0 <= i <= |body|
      invariant ApplyContacts(current.contacts, body[..i]) == Ok(contacts)
    {
      assert body[..i + 1][..i] == body[..i];
      var (key, value) := body[i];
      if key == EMAIL_KEY {
        contacts := contacts.(email := EmailFrom(value));
      } else if key == TELEGRAM_KEY {
        contacts := contacts.(telegram := TelegramFrom(value));
      } else {
        ApplyContactsStops(current.contacts, body, i);
        return Err(KeyError(key));
      }
      i := i + 1;
    }
    assert body[..i] == body;
    var err := store.Save(current.(contacts := contacts), hashpw, checkUrl);
    if err.Some? {
      return Err(err.value);
    }
    r := Ok(ContactsAnswer(contacts));
  }

  /** A bad key at `k`, after a prefix that applied, is the answer for the
      whole body. */
  lemma {:induction false} ApplyContactsStops(c: Contacts, body: ContactsBody, k: nat)
    requires k < |body| && ApplyContacts(c, body[..k]).Ok?
    requires body[k].0 != EMAIL_KEY && body[k].0 != TELEGRAM_KEY
    ensures ApplyContacts(c, body) == Err(KeyError(body[k].0))
    decreases |body|
  {
    if k < |body| - 1 {
      var init := body[..|body| - 1];
      assert init[..k] == body[..k];
      ApplyContactsStops(c, init, k);
    } else {
      assert body[..|body| - 1] == body[..k];
    }
  }

  // ----- POST /user/profile-picture -----

  /** `rfind`: the last position of `c`, -1 when there is none. */
  function LastIndex(s: string, c: char): (r: int)
    ensures -1 <= r < |s|
    ensures r >= 0 ==> s[r] == c && forall j :: r < j < |s| ==> s[j] != c
    ensures r == -1 ==> forall j :: 0 <= j < |s| ==> s[j] != c
  {
    if s == [] then -1
    else if s[|s| - 1] == c then |s| - 1
    else LastIndex(s[..|s| - 1], c)
  }

  /** `os.path.splitext`: the extension starts at the last dot of the last
      path component, unless only dots precede it there. */
  function Splitext(p: string): (r: (string, string))
    ensures r.0 + r.1 == p
    ensures r.1 != "" ==> r.1[0] == '.' && forall j :: 1 <= j < |r.1| ==> r.1[j] != '.' && r.1[j] != '/'
  {
    var sep := LastIndex(p, '/');
    var dot := LastIndex(p, '.');
    if dot > sep && exists j :: sep + 1 <= j < dot && p[j] != '.' then
      assert p[..dot] + p[dot..] == p;
      (p[..dot], p[dot..])
    else (p, "")
  }

  /** The uploaded file: its client-side name and its bytes. */
  datatype FileUpload = FileUpload(filename: string, content: seq<bv8>)

  /** ASCII whitespace, which `bytes.fromhex` skips between digit pairs. */
  predicate IsAsciiSpace(c: char) {
    c == ' ' || c == '\t' || c == '\n' || c == '\r' || c as int == 11 || c as int == 12
  }

  predicate IsHexChar(c: char) {
    ('0' <= c <= '9') || ('a' <= c <= 'f') || ('A' <= c <= 'F')
  }

  /** Where the digit scan of `bytes.fromhex` gives up, scanning from `i`:
      the position of the first character that is not a digit where a
      digit is due. */
  function HexScanError(s: string, i: nat): (r: Option<nat>)
    ensures r.Some? ==> i <= r.value <= |s|
    decreases |s| - i
  {
    if i >= |s| then None
    else if IsAsciiSpace(s[i]) then HexScanError(s, i + 1)
    else if !IsHexChar(s[i]) then Some(i)
    else if i + 1 >= |s| || !IsHexChar(s[i + 1]) then Some(i + 1)
    else HexScanError(s, i + 2)
  }

  /** The position of the first character outside ASCII, from `i` on. */
  function FirstNonAscii(s: string, i: nat): (r: Option<nat>)
    ensures r.Some? ==> i <= r.value < |s| && s[r.value] as int >= 128
    ensures r.Some? ==> forall j :: i <= j < r.value ==> s[j] as int < 128
    ensures r.None? ==> forall j :: i <= j < |s| ==> s[j] as int < 128
    decreases |s| - i
  {
    if i >= |s| then None
    else if s[i] as int >= 128 then Some(i)
    else FirstNonAscii(s, i + 1)
  }

  /** Where `bytes.fromhex(s)` gives up. CPython refuses text holding any
      character outside ASCII at the first such character, whatever comes
      before it; ASCII text is scanned for digit pairs. */
  function FromHexError(s: string): (r: Option<nat>)
    ensures r.Some? ==> r.value <= |s|
    ensures FirstNonAscii(s, 0).Some? ==> r == FirstNonAscii(s, 0)
  {
    var wide := FirstNonAscii(s, 0);
    if wide.Some? then wide else HexScanError(s, 0)
  }

  function FromHexMessage(position: nat): string {
    "non-hexadecimal number found in fromhex() arg at position " + Padded(position, 1)
  }

  /** Pairs of hexadecimal digits are read without error. */
  lemma {:induction false} DigitPairsAreRead(s: string, i: nat)
    requires i <= |s| && (|s| - i) % 2 == 0
    requires forall j :: i <= j < |s| ==> IsHexDigit(s[j])
    ensures HexScanError(s, i).None?
    decreases |s| - i
  {
    if i < |s| {
      DigitPairsAreRead(s, i + 2);
    }
  }

  /** Every id the id source generates is read by `bytes.fromhex`, so only
      an id given by keyword can make the upload fail there. */
  lemma GeneratedIdIsHex(n: nat)
    requires n < Pow16(OBJECT_ID_WIDTH)
    ensures FromHexError(ObjectId(n)).None?
  {
    HexWidth(n, OBJECT_ID_WIDTH);
    DigitPairsAreRead(ObjectId(n), 0);
    assert FirstNonAscii(ObjectId(n), 0).None?;
  }

  /** What the bucket holds about one upload. */
  datatype StoredObject = StoredObject(path: string, content: seq<bv8>, acl: string, contentType: string, user: string)

  /** The media bucket: every object uploaded, in order. */
  class MediaBucket {
    var objects: seq<StoredObject>

    constructor ()
      ensures objects == []
    {
      objects := [];
    }

    /** `upload_fileobj`. `failure` is the error the storage service answers
        with, if any; nothing is stored then. */
    method UploadFileobj(o: StoredObject, failure: Option<string>) returns (err: Option<Exception>)
      modifies this
      ensures failure.None? ==> err.None? && objects == old(objects) + [o]
      ensures failure.Some? ==> err == Some(TransportError(failure.value)) && objects == old(objects)
    {
      if failure.Some? {
        return Some(TransportError(failure.value));
      }
      objects := objects + [o];
      err := None;
    }
  }

  const NO_FILE_MSG: string := "no file provided"
  const INVALID_TYPE_MSG: string := "invalid file type"
  const TOO_LARGE_MSG: string := "file too large"
  const SUCCESS_MSG: string := "success"

  /** The media type inferred from an extension: `image/` and the extension
      without its dot. */
  function MimeType(ext: string): string
    requires ext != ""
  {
    "image/" + ext[1..]
  }

  function ResourcePath(id: string, ext: string): string {
    "profile-pic/" + id + ext
  }

  /** The three extensions that pass give three media types; `.jpg` gives
      `image/jpg`, which is not in `PROFILE_PIC_ALLOWED_MIMETYPES`. */
  lemma AllowedMimeTypes(ext: string)
    requires ext in PROFILE_PIC_ALLOWED_EXTENSIONS
    ensures MimeType(ext) in ["image/jpeg", "image/jpg", "image/png"]
    ensures ext == ".jpg" ==> MimeType(ext) == "image/jpg"
  {
    var types := ["image/jpeg", "image/jpg", "image/png"];
    if ext == ".jpeg" {
      assert ext[1..] == "jpeg";
      assert MimeType(ext) == types[0];
    } else if ext == ".jpg" {
      assert ext[1..] == "jpg";
      assert MimeType(ext) == types[1];
    } else {
      assert ext == ".png";
      assert ext[1..] == "png";
      assert MimeType(ext) == types[2];
    }
  }

  /** `user_profile_picture_post`. `secureFilename` is werkzeug's
      `secure_filename`, `mediaBaseUrl` is `MEDIA_BASE_URL` and `failure`
      the storage service's answer. The checks run in order: a file with a
      name, an allowed extension (case-sensitive), at most 200 KiB, an id
      `bytes.fromhex` reads; then the upload, the new URL, and `save()`. */
  method UserProfilePicturePost(store: UserStore, bucket: MediaBucket, current: User, file: Option<FileUpload>,
                                secureFilename: string -> string, mediaBaseUrl: string,
                                failure: Option<string>, hashpw: string -> string, checkUrl: string -> Option<string>)
    returns (r: Result<Response, Exception>)
    requires store.Valid()
    modifies store, bucket
    ensures store.Valid()
    ensures (file.None? || file.value.filename == "") ==>
      r == Ok(Msg(400, NO_FILE_MSG)) && store.users == old(store.users) && bucket.objects == old(bucket.objects)
    ensures file.Some? && file.value.filename != "" ==>
      var ext := Splitext(secureFilename(file.value.filename)).1;
      && (ext !in PROFILE_PIC_ALLOWED_EXTENSIONS ==>
            r == Ok(Msg(400, INVALID_TYPE_MSG)) && store.users == old(store.users) && bucket.objects == old(bucket.objects))
      && (ext in PROFILE_PIC_ALLOWED_EXTENSIONS && |file.value.content| > PROFILE_PIC_MAX_SIZE ==>
            r == Ok(Msg(400, TOO_LARGE_MSG)) && store.users == old(store.users) && bucket.objects == old(bucket.objects))
      && (ext in PROFILE_PIC_ALLOWED_EXTENSIONS && |file.value.content| <= PROFILE_PIC_MAX_SIZE ==>
            var path := ResourcePath(current.id, ext);
            var stored := StoredObject(path, file.value.content, "public-read", MimeType(ext),
                                       if current.id != "" then current.id else "unauthenticated");
            && (FromHexError(current.id).Some? ==>
                  r == Err(ValueError(FromHexMessage(FromHexError(current.id).value)))
                  && store.users == old(store.users) && bucket.objects == old(bucket.objects))
            && (FromHexError(current.id).None? && failure.Some? ==>
                  r == Err(TransportError(failure.value))
                  && store.users == old(store.users) && bucket.objects == old(bucket.objects))
            && (FromHexError(current.id).None? && failure.None? ==>
                  var o := SaveOutcome(old(store.users), current.(profilePicture := Some(mediaBaseUrl + "/" + path)), hashpw, checkUrl);
                  && bucket.objects == old(bucket.objects) + [stored]
                  && store.users == o.1
                  && r == if o.0.Some? then Err(o.0.value) else Ok(Msg(200, SUCCESS_MSG))))
  {
    if file.None? || file.value.filename == "" {
      return Ok(Msg(400, NO_FILE_MSG));
    }
    var ext := Splitext(secureFilename(file.value.filename)).1;
    if ext !in PROFILE_PIC_ALLOWED_EXTENSIONS {
      return Ok(Msg(400, INVALID_TYPE_MSG));
    }
    if |file.value.content| > PROFILE_PIC_MAX_SIZE {
      return Ok(Msg(400, TOO_LARGE_MSG));
    }
    var bad := FromHexError(current.id);
    if bad.Some? {
      return Err(ValueError(FromHexMessage(bad.value)));
    }
    var path := ResourcePath(current.id, ext);
    var stored := StoredObject(path, file.value.content, "public-read", MimeType(ext),
                               if current.id != "" then current.id else "unauthenticated");
    var uploadErr := bucket.UploadFileobj(stored, failure);
    if uploadErr.Some? {
      return Err(uploadErr.value);
    }
    var err := store.Save(current.(profilePicture := Some(mediaBaseUrl + "/" + path)), hashpw, checkUrl);
    if err.Some? {
      return Err(err.value);
    }
    r := Ok(Msg(200, SUCCESS_MSG));
  }
}
