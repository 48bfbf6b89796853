/** File submissions: the name an upload is stored under, the extension
    allow-list and size limit applied before the handler runs, and the
    `/api/submit` handler that records the submission or removes the file. */
module Uploads {
  import opened Common
  import opened Text
  import opened Database
  import opened Auth

  // ---------------------------------------------------------------- stored names

  /** The characters the sanitiser keeps: `[a-zA-Z0-9.-]`. */
  predicate IsSafeChar(c: char) {
    IsLower(c) || IsUpper(c) || IsDigit(c) || c == '.' || c == '-'
  }

  /** `name.replace(/[^a-zA-Z0-9.-]/g, '_')`: same length, every character
      outside the safe set replaced by `_`, every safe one kept. */
  function Sanitize(name: string): (r: string)
    ensures |r| == |name|
    ensures forall i :: 0 <= i < |name| && IsSafeChar(name[i]) ==> r[i] == name[i]
    ensures forall i :: 0 <= i < |name| && !IsSafeChar(name[i]) ==> r[i] == '_'
    decreases |name|
  {
    if name == [] then []
    else [if IsSafeChar(name[0]) then name[0] else '_'] + Sanitize(name[1..])
  }

  /** A sanitised name holds only safe characters and `_`, so sanitising it
      again changes nothing. */
  lemma SanitizeIdempotent(name: string)
    ensures forall i :: 0 <= i < |Sanitize(name)| ==> IsSafeChar(Sanitize(name)[i]) || Sanitize(name)[i] == '_'
    ensures Sanitize(Sanitize(name)) == Sanitize(name)
  {
    var r := Sanitize(name);
    var rr := Sanitize(r);
    forall i | 0 <= i < |r| ensures rr[i] == r[i] {
      if !IsSafeChar(r[i]) {
        assert r[i] == '_';
      }
    }
  }

  /** The owner part of a stored name: the session's user id, or `anon`. */
  function OwnerTag(userId: Option<nat>): (tag: string)
    ensures '_' !in tag
    ensures userId.Some? && userId.value != 0 ==> tag == NatToString(userId.value)
    ensures !(userId.Some? && userId.value != 0) ==> tag == "anon"
  {
    if userId.Some? && userId.value != 0 then NatToString(userId.value) else "anon"
  }

  /** The multer `filename` callback: `${userId || 'anon'}_${timestamp}_${sanitised}`. */
  function StoredFilename(userId: Option<nat>, timestamp: nat, originalName: string): string {
    OwnerTag(userId) + "_" + NatToString(timestamp) + "_" + Sanitize(originalName)
  }

  /** The first two `_`-separated fields of a stored name are the owner tag
      and the timestamp, and the rest is the sanitised original name. */
  lemma StoredFilenameFields(userId: Option<nat>, timestamp: nat, originalName: string)
    ensures |Split(StoredFilename(userId, timestamp, originalName), '_')| >= 2
    ensures Split(StoredFilename(userId, timestamp, originalName), '_')[0] == OwnerTag(userId)
    ensures Split(StoredFilename(userId, timestamp, originalName), '_')[1] == NatToString(timestamp)
    ensures StoredFilename(userId, timestamp, originalName)[|OwnerTag(userId)| + |NatToString(timestamp)| + 2..] == Sanitize(originalName)
  {
    var a, b, c := OwnerTag(userId), NatToString(timestamp), Sanitize(originalName);
    assert '_' !in b by {
      forall i | 0 <= i < |b| ensures b[i] != '_' { assert IsDigit(b[i]); }
    }
    assert StoredFilename(userId, timestamp, originalName) == a + ['_'] + (b + ['_'] + c);
    SplitAtFirst(a, b + ['_'] + c, '_');
    SplitAtFirst(b, c, '_');
  }

  /** A stored name determines its owner, its timestamp and the sanitised
      original name. */
  lemma StoredFilenameInjective(u1: Option<nat>, t1: nat, n1: string, u2: Option<nat>, t2: nat, n2: string)
    requires StoredFilename(u1, t1, n1) == StoredFilename(u2, t2, n2)
    ensures OwnerTag(u1) == OwnerTag(u2) && t1 == t2 && Sanitize(n1) == Sanitize(n2)
  {
    StoredFilenameFields(u1, t1, n1);
    StoredFilenameFields(u2, t2, n2);
    NatToStringInjective(t1, t2);
  }

  /** Two logged-in users never share a stored name. */
  lemma StoredFilenameNamesOwner(id1: nat, id2: nat, t1: nat, t2: nat, n1: string, n2: string)
    requires id1 != 0 && id2 != 0 && id1 != id2
    ensures StoredFilename(Some(id1), t1, n1) != StoredFilename(Some(id2), t2, n2)
  {
    if StoredFilename(Some(id1), t1, n1) == StoredFilename(Some(id2), t2, n2) {
      StoredFilenameInjective(Some(id1), t1, n1, Some(id2), t2, n2);
      NatToStringInjective(id1, id2);
    }
  }

  // ---------------------------------------------------------------- extension allow-list

  const AllowedExtensions: seq<string> := ["pdf", "doc", "docx", "txt", "jpg", "jpeg", "png"]

  /** `s` ends in `.` followed by one of `exts`. */
  predicate EndsWithOneOf(s: string, exts: seq<string>)
    decreases |exts|
  {
    exts != [] && (EndsWith(s, "." + exts[0]) || EndsWithOneOf(s, exts[1..]))
  }

  lemma {:induction false} EndsWithOneOfIndex(s: string, exts: seq<string>)
    ensures EndsWithOneOf(s, exts) <==> exists k :: 0 <= k < |exts| && EndsWith(s, "." + exts[k])
    decreases |exts|
  {
    if exts != [] {
      EndsWithOneOfIndex(s, exts[1..]);
      if exists k :: 0 <= k < |exts| && EndsWith(s, "." + exts[k]) {
        var k :| 0 <= k < |exts| && EndsWith(s, "." + exts[k]);
        if k > 0 {
          assert exts[1..][k - 1] == exts[k];
        }
      }
      if EndsWithOneOf(s, exts[1..]) {
        var k :| 0 <= k < |exts[1..]| && EndsWith(s, "." + exts[1..][k]);
        assert exts[k + 1] == exts[1..][k];
      }
    }
  }

  /** `/\.(pdf|doc|docx|txt|jpg|jpeg|png)$/i.test(name)`. */
  predicate AllowedUpload(name: string) {
    EndsWithOneOf(ToLower(name), AllowedExtensions)
  }

  /** Every allowed extension is a run of lower-case letters. */
  lemma AllowedExtensionsLower(k: nat)
    requires k < |AllowedExtensions|
    ensures forall i :: 0 <= i < |AllowedExtensions[k]| ==> IsLower(AllowedExtensions[k][i])
  {
  }

  /** The position of the last `.` of `s`. */
  function LastDot(s: string): (r: Option<nat>)
    ensures r.Some? ==> r.value < |s| && s[r.value] == '.' && forall j :: r.value < j < |s| ==> s[j] != '.'
    ensures r.None? ==> forall j :: 0 <= j < |s| ==> s[j] != '.'
    decreases |s|
  {
    if s == [] then None
    else if s[|s| - 1] == '.' then Some(|s| - 1)
    else LastDot(s[..|s| - 1])
  }

  /** The text after the last dot, when there is one. */
  function Extension(name: string): Option<string> {
    match LastDot(name)
    case None => None
    case Some(k) => Some(name[k + 1..])
  }

  /** Lower-casing moves no dot. */
  lemma {:induction false} LastDotLower(s: string)
    ensures LastDot(ToLower(s)) == LastDot(s)
    decreases |s|
  {
    if s != [] {
      var lower := ToLower(s);
      assert lower[..|s| - 1] == ToLower(s[..|s| - 1]);
      LastDotLower(s[..|s| - 1]);
    }
  }

  lemma ToLowerSuffix(s: string, k: nat)
    requires k <= |s|
    ensures ToLower(s[k..]) == ToLower(s)[k..]
  {
  }

  /** A dot with no dot after it is the last dot. */
  lemma LastDotAt(s: string, d: nat)
    requires d < |s| && s[d] == '.'
    requires forall j :: d < j < |s| ==> s[j] != '.'
    ensures LastDot(s) == Some(d)
  {
    var r := LastDot(s);
    assert r.Some?;
    assert !(r.value < d) && !(d < r.value);
  }

  lemma EndsWithDotExtensionOnly(s: string, e: string)
    requires '.' !in e && EndsWith(s, "." + e)
    ensures LastDot(s) == Some(|s| - |e| - 1) && s[|s| - |e|..] == e
  {
    var t := "." + e;
    var d := |s| - |t|;
    assert s[d..] == t;
    assert s[d] == t[0] == '.';
    forall j | d < j < |s| ensures s[j] != '.' {
      assert s[j] == t[j - d] == e[j - d - 1];
    }
    LastDotAt(s, d);
    assert s[d + 1..] == s[d..][1..];
  }

  lemma DotExtensionEndsWith(s: string, e: string)
    requires LastDot(s).Some? && s[LastDot(s).value + 1..] == e
    ensures EndsWith(s, "." + e)
  {
    var k := LastDot(s).value;
    assert s[k..] == [s[k]] + s[k + 1..];
  }

  /** For an extension without a dot, ending in `.ext` is having `ext` after
      the last dot. */
  lemma EndsWithDotExtension(s: string, e: string)
    requires '.' !in e
    ensures EndsWith(s, "." + e) <==> LastDot(s).Some? && s[LastDot(s).value + 1..] == e
  {
    if EndsWith(s, "." + e) {
      EndsWithDotExtensionOnly(s, e);
    }
    if LastDot(s).Some? && s[LastDot(s).value + 1..] == e {
      DotExtensionEndsWith(s, e);
    }
  }

  /** The allow-list reads the extension: an upload passes exactly when its
      name has a dot and the text after the last dot is, ignoring case, one
      of the allowed extensions. */
  lemma AllowedUploadByExtension(name: string)
    ensures AllowedUpload(name) <==>
      Extension(name).Some? && exists k :: 0 <= k < |AllowedExtensions| && ToLower(Extension(name).value) == AllowedExtensions[k]
  {
    var lower := ToLower(name);
    EndsWithOneOfIndex(lower, AllowedExtensions);
    LastDotLower(name);
    forall k | 0 <= k < |AllowedExtensions|
      ensures EndsWith(lower, "." + AllowedExtensions[k]) <==>
        LastDot(name).Some? && ToLower(name[LastDot(name).value + 1..]) == AllowedExtensions[k]
    {
      AllowedExtensionsLower(k);
      EndsWithDotExtension(lower, AllowedExtensions[k]);
      if LastDot(name).Some? {
        ToLowerSuffix(name, LastDot(name).value + 1);
      }
    }
  }

  /** Sanitising and lower-casing a character hits a safe character exactly
      when lower-casing alone does. */
  lemma SanitizedCharMatches(c: char, t: char)
    requires IsSafeChar(t)
    ensures ToLowerChar(if IsSafeChar(c) then c else '_') == t <==> ToLowerChar(c) == t
  {
  }

  lemma EndsWithByIndex(s: string, t: string)
    ensures EndsWith(s, t) <==> |t| <= |s| && forall i :: 0 <= i < |t| ==> s[|s| - |t| + i] == t[i]
  {
    if |t| <= |s| && forall i :: 0 <= i < |t| ==> s[|s| - |t| + i] == t[i] {
      assert s[|s| - |t|..] == t;
    }
  }

  /** Sanitising is invisible to a suffix of safe characters. */
  lemma SanitizeKeepsSuffix(name: string, t: string)
    requires forall i :: 0 <= i < |t| ==> IsSafeChar(t[i])
    ensures EndsWith(ToLower(Sanitize(name)), t) <==> EndsWith(ToLower(name), t)
  {
    var lower, slower := ToLower(name), ToLower(Sanitize(name));
    EndsWithByIndex(lower, t);
    EndsWithByIndex(slower, t);
    forall i | 0 <= i < |t| && |t| <= |name|
      ensures slower[|name| - |t| + i] == t[i] <==> lower[|name| - |t| + i] == t[i]
    {
      var k := |name| - |t| + i;
      var c := name[k];
      assert Sanitize(name)[k] == if IsSafeChar(c) then c else '_';
      assert slower[k] == ToLowerChar(Sanitize(name)[k]);
      assert lower[k] == ToLowerChar(c);
      SanitizedCharMatches(c, t[i]);
    }
  }

  /** Sanitising keeps an allowed extension: the stored name passes the
      allow-list exactly when the original name does. */
  lemma SanitizeKeepsAllowed(name: string)
    ensures AllowedUpload(Sanitize(name)) <==> AllowedUpload(name)
  {
    EndsWithOneOfIndex(ToLower(name), AllowedExtensions);
    EndsWithOneOfIndex(ToLower(Sanitize(name)), AllowedExtensions);
    forall k | 0 <= k < |AllowedExtensions|
      ensures EndsWith(ToLower(Sanitize(name)), "." + AllowedExtensions[k]) <==> EndsWith(ToLower(name), "." + AllowedExtensions[k])
    {
      AllowedExtensionsLower(k);
      SanitizeKeepsSuffix(name, "." + AllowedExtensions[k]);
    }
  }

  // ---------------------------------------------------------------- the upload gate

  /** `limits.fileSize`: 10 MB. */
  const MaxUploadBytes: nat := 10 * 1024 * 1024

  datatype Upload = Upload(originalName: string, size: nat)

  datatype UploadProblem = WrongType | TooLarge

  /** multer's `fileFilter` and its size limit, in that order. */
  function UploadCheck(u: Upload): (r: Option<UploadProblem>)
    ensures r.None? <==> AllowedUpload(u.originalName) && u.size <= MaxUploadBytes
    ensures r == Some(WrongType) <==> !AllowedUpload(u.originalName)
  {
    if !AllowedUpload(u.originalName) then Some(WrongType)
    else if u.size > MaxUploadBytes then Some(TooLarge)
    else None
  }

  // ---------------------------------------------------------------- POST /api/submit

  datatype SubmitForm = SubmitForm(title: Option<string>, kind: Option<string>, notes: Option<string>)

  /** `String(field || fallback)` for a body field that is absent or a string. */
  function BodyOr(field: Option<string>, fallback: string): string {
    if field.Some? && field.value != "" then field.value else fallback
  }

  function SubmitTitle(xss: string -> string, f: SubmitForm): string { xss(Trim(BodyString(f.title))) }
  function SubmitKind(xss: string -> string, f: SubmitForm): string { xss(Trim(BodyOr(f.kind, "assignment"))) }
  function SubmitNotes(xss: string -> string, f: SubmitForm): string { xss(Trim(BodyString(f.notes))) }

  datatype SubmitOutcome =
    | LoginRedirect
    | UploadRefused(problem: UploadProblem)
    | NoFile
    | TitleRequired
    | Submitted(id: nat, title: string)
    | SubmitFailed

  /** The row a successful submission stores. */
  function SubmittedRow(id: nat, owner: nat, xss: string -> string, dir: string, now: nat,
                        upload: Upload, form: SubmitForm, stamp: nat): Submission
  {
    var stored := StoredFilename(Some(owner), now, upload.originalName);
    var notes := SubmitNotes(xss, form);
    Submission(id, owner, SubmitTitle(xss, form), SubmitKind(xss, form), upload.originalName,
               stored, dir + "/" + stored, if notes == "" then None else Some(notes), "pending", stamp)
  }

  /** `POST /api/submit` behind `requireAuth` and the upload gate: a
      submission is recorded exactly when the session is logged in, an
      acceptable file came with the request, the escaped title is non-empty
      and the logged-in user still exists; the uploaded file stays on disk
      exactly then, and is removed on every other path that stored it. */
  method Submit(db: Store, session: Session, xss: string -> string, dir: string, now: nat,
                upload: Option<Upload>, form: SubmitForm)
    returns (out: SubmitOutcome, fileKept: bool)
    requires db.Valid()
    modifies db
    ensures db.Valid()
    ensures db.users == old(db.users) && db.progress == old(db.progress)
    ensures RequireAuth(session.userId) == RedirectToLogin ==> out == LoginRedirect
    ensures RequireAuth(session.userId) == Pass && upload.Some? && UploadCheck(upload.value).Some? ==>
      out == UploadRefused(UploadCheck(upload.value).value)
    ensures RequireAuth(session.userId) == Pass && upload.None? ==> out == NoFile
    ensures (RequireAuth(session.userId) == Pass && upload.Some? && UploadCheck(upload.value).None?
             && SubmitTitle(xss, form) == "") ==> out == TitleRequired
    ensures (RequireAuth(session.userId) == Pass && upload.Some? && UploadCheck(upload.value).None?
             && SubmitTitle(xss, form) != "" && !HasUser(old(db.users), session.userId.value)) ==> out == SubmitFailed
    ensures out.Submitted? <==>
      RequireAuth(session.userId) == Pass && upload.Some? && UploadCheck(upload.value).None?
      && SubmitTitle(xss, form) != "" && HasUser(old(db.users), session.userId.value)
    ensures fileKept <==> out.Submitted?
    ensures out.Submitted? ==>
      out.id == old(db.nextSubmissionId) && out.title == SubmitTitle(xss, form)
      && db.submissions == old(db.submissions) + [SubmittedRow(out.id, session.userId.value, xss, dir, now, upload.value, form, old(db.clock))]
    ensures !out.Submitted? ==> db.submissions == old(db.submissions)
  {
    fileKept := false;
    if RequireAuth(session.userId) == RedirectToLogin {
      return LoginRedirect, false;
    }
    if upload.None? {
      return NoFile, false;
    }
    var problem := UploadCheck(upload.value);
    if problem.Some? {
      return UploadRefused(problem.value), false;
    }
    var owner := session.userId.value;
    var stored := StoredFilename(session.userId, now, upload.value.originalName);
    var title := SubmitTitle(xss, form);
    var kind := SubmitKind(xss, form);
    var notes := SubmitNotes(xss, form);
    if title == "" {
      return TitleRequired, false;
    }
    var created := db.CreateSubmission(owner, SubmissionData(
      Text(title), Text(kind), Text(upload.value.originalName), Text(stored),
      Text(dir + "/" + stored), Text(notes), Text("pending")));
    if created.Err? {
      return SubmitFailed, false;
    }
    out := Submitted(created.value.id, created.value.title);
    fileKept := true;
  }
}
