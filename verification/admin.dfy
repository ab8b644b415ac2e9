/** The admin page's logic (`src/pages/Admin.tsx`): the avatar initials, the
    selected-file list, the upload form's schema, and the upload-then-insert
    sequence of a submission. */
module Admin {
  import opened Js
  import opened Text

  // -----------------------------------------------------------------------
  // Avatar initials

  /** How a JavaScript expression finishes: with a string, or by throwing. */
  datatype Outcome = Returned(text: string) | Threw

  /** `s[0]` in JavaScript: `undefined` past the end. */
  function CharAt0(s: string): Nullable<char> {
    if |s| > 0 then Some(s[0]) else Null
  }

  /** `a + b` on two values that are each a one-character string or
      `undefined`: `undefined` concatenates as the text "undefined", and two
      `undefined`s add up to the number `NaN` (here `Null`). */
  function PlusAsWritten(a: Nullable<char>, b: Nullable<char>): Nullable<string> {
    match (a, b)
    case (Some(x), Some(y)) => Some([x, y])
    case (Some(x), Null) => Some([x] + "undefined")
    case (Null, Some(y)) => Some("undefined" + [y])
    case (Null, Null) => Null
  }

  /** The text of an email address before its first `@`. */
  function LocalPart(email: string): (local: string)
    ensures '@' !in local
    ensures local <= email
    ensures '@' in email ==> email[|local|] == '@'
    ensures '@' !in email ==> local == email
  {
    SplitHead(email, '@');
    Split(email, '@')[0]
  }

  /** `getUserInitials()` as written: two dot-separated pieces in the local
      part give their first characters, upper-cased; an empty piece makes
      that character `undefined`, so one empty piece yields the text
      "undefined" and two make `NaN`, on which `toUpperCase` throws. */
  function InitialsAsWritten(email: Nullable<string>): (r: Outcome)
    ensures !Truthy(email) ==> r == Returned("A")
    ensures r.Threw? <==> Truthy(email) && BothPiecesEmpty(LocalPart(email.value))
    ensures (Truthy(email) && '.' in LocalPart(email.value) && !HasTwoInitials(LocalPart(email.value))
             && !BothPiecesEmpty(LocalPart(email.value))) ==>
      var local := LocalPart(email.value);
      r == Returned(if IndexOf(local, '.') == 0 then "UNDEFINED" + [UpperChar(local[1])]
                    else [UpperChar(local[0])] + "UNDEFINED")
  {
    if !Truthy(email) then Returned("A")
    else
      assert Upper("undefined") == "UNDEFINED";
      var parts := Split(LocalPart(email.value), '.');
      SecondPieceHead(LocalPart(email.value));
      if |parts| >= 2 then
        match PlusAsWritten(CharAt0(parts[0]), CharAt0(parts[1]))
        case Some(t) => Returned(Upper(t))
        case Null => Threw
      else
        Returned(Upper([email.value[0]]))
  }

  /** The local part starts with a dot that is followed by another dot or
      by nothing: the first two dot-pieces are both empty. */
  predicate BothPiecesEmpty(local: string) {
    '.' in local &&
    var j := IndexOf(local, '.');
    j == 0 && (j + 1 == |local| || local[j + 1] == '.')
  }

  /** The two-letter case: the local part has a first dot that is neither
      its first character nor followed by another dot or the end. */
  predicate HasTwoInitials(local: string) {
    '.' in local &&
    var j := IndexOf(local, '.');
    0 < j && j + 1 < |local| && local[j + 1] != '.'
  }

  /** Avatar initials with the empty-piece case falling back, like the
      one-piece case, to the first character of the address. */
  function Initials(email: Nullable<string>): (r: string)
    ensures !Truthy(email) ==> r == "A"
    ensures Truthy(email) && HasTwoInitials(LocalPart(email.value)) ==>
      var local := LocalPart(email.value);
      r == [UpperChar(local[0]), UpperChar(local[IndexOf(local, '.') + 1])]
    ensures Truthy(email) && !HasTwoInitials(LocalPart(email.value)) ==>
      r == [UpperChar(email.value[0])]
  {
    if !Truthy(email) then "A"
    else
      var parts := Split(LocalPart(email.value), '.');
      SecondPieceHead(LocalPart(email.value));
      if |parts| >= 2 && parts[0] != "" && parts[1] != "" then
        Upper([parts[0][0], parts[1][0]])
      else
        Upper([email.value[0]])
  }

  /** The first two pieces of a split on `.` are both non-empty exactly when
      the string has two initials, and their first characters are the first
      character and the one after the first dot. */
  lemma SecondPieceHead(local: string)
    ensures var parts := Split(local, '.');
      (|parts| >= 2 && parts[0] != "" && parts[1] != "") <==> HasTwoInitials(local)
    ensures var parts := Split(local, '.');
      (|parts| >= 2 && parts[0] == "" && parts[1] == "") <==> BothPiecesEmpty(local)
    ensures var parts := Split(local, '.');
      HasTwoInitials(local) ==>
        parts[0][0] == local[0] && parts[1][0] == local[IndexOf(local, '.') + 1]
  {
    var parts := Split(local, '.');
    SplitCount(local, '.');
    if '.' in local {
      var j := IndexOf(local, '.');
      var rest := local[j + 1..];
      assert parts[0] == local[..j];
      assert parts[1..] == Split(rest, '.');
      SplitHead(rest, '.');
      if |rest| > 0 {
        assert rest[0] == local[j + 1];
        if rest[0] != '.' {
          assert parts[1][0] == rest[0];
        }
      }
    }
  }

  /** Wherever the source returns without `undefined` in play, the corrected
      initials agree with it. */
  lemma InitialsAgreeOutsideEmptyPieces(email: Nullable<string>)
    requires Truthy(email)
    requires var parts := Split(LocalPart(email.value), '.');
      |parts| < 2 || (parts[0] != "" && parts[1] != "")
    ensures InitialsAsWritten(email) == Returned(Initials(email))
  {
  }

  /** An address whose local part ends in a dot gets "undefined" in its
      initials as written. */
  lemma TrailingDotShowsUndefined()
    ensures InitialsAsWritten(Some("j.@x")) == Returned("JUNDEFINED")
    ensures Initials(Some("j.@x")) == "J"
  {
    TrailingDotPieces();
    assert !HasTwoInitials("j.");
  }

  /** The local part of "j.@x" and its pieces. */
  lemma TrailingDotPieces()
    ensures LocalPart("j.@x") == "j."
    ensures Split("j.", '.') == ["j", ""]
    ensures PlusAsWritten(CharAt0("j"), CharAt0("")) == Some("jundefined")
    ensures Upper("jundefined") == "JUNDEFINED"
  {
    var email := "j.@x";
    assert email[1] == '.' && email[2] == '@';
    assert '@' in email && IndexOf(email, '@') == 2;
    var local := "j.";
    assert '.' in local && IndexOf(local, '.') == 1;
    assert local[..1] == "j" && local[2..] == "";
    assert Split(local, '.') == ["j"] + Split("", '.');
    assert ['j'] + "undefined" == "jundefined";
    var up := Upper("jundefined");
    assert forall k :: 0 <= k < |up| ==> up[k] == "JUNDEFINED"[k];
  }

  /** An address whose local part is a lone dot makes the source throw. */
  lemma LoneDotThrows()
    ensures InitialsAsWritten(Some(".@x")) == Threw
    ensures Initials(Some(".@x")) == "."
  {
    var email := ".@x";
    assert email[0] == '.' && email[1] == '@';
    assert '@' in email && IndexOf(email, '@') == 1;
    var local := LocalPart(email);
    assert local == ".";
    assert '.' in local && IndexOf(local, '.') == 0;
    assert local[..0] == "" && local[1..] == "";
    assert Split(local, '.') == [""] + Split("", '.');
    assert Split(local, '.') == ["", ""];
    assert !HasTwoInitials(local);
  }

  // -----------------------------------------------------------------------
  // Selected files

  datatype FileItem = FileItem(name: string)

  /** `removeFile(index)`: keep every file whose position differs from
      `index`. */
  method RemoveFile<T>(files: seq<T>, index: int) returns (kept: seq<T>)
    ensures 0 <= index < |files| ==> kept == files[..index] + files[index + 1..]
    ensures !(0 <= index < |files|) ==> kept == files
  {
    kept := [];
    var i := 0;
    while i < |files|
      invariant 0 <= i <= |files|
      invariant 0 <= index < i ==> kept == files[..index] + files[index + 1..i]
      invariant !(0 <= index < i) ==> kept == files[..i]
    {
      if i != index {
        kept := kept + [files[i]];
      }
      i := i + 1;
    }
    assert files[..|files|] == files;
  }

  /** Removing an in-range file takes exactly that one occurrence out. */
  lemma RemoveFileMultiset<T>(files: seq<T>, index: int)
    requires 0 <= index < |files|
    ensures multiset(files[..index] + files[index + 1..]) + multiset{files[index]} == multiset(files)
  {
    assert files == files[..index] + [files[index]] + files[index + 1..];
  }

  /** `file.name.split(".").pop()`: the last piece of the name between
      dots. */
  function Extension(name: string): (ext: string)
    ensures ext == LastPiece(name, '.')
  {
    var parts := Split(name, '.');
    SplitLast(name, '.');
    parts[|parts| - 1]
  }

  /** The extension is the text after the last dot, or the whole name when
      it has none. */
  lemma ExtensionShape(name: string)
    ensures var ext := Extension(name);
      && '.' !in ext
      && |ext| <= |name| && ext == name[|name| - |ext|..]
      && ('.' in name ==> |ext| < |name| && name[|name| - |ext| - 1] == '.')
      && ('.' !in name ==> ext == name)
  {
    LastPieceShape(name, '.');
    LastPieceFree(name, '.');
    LastPieceBounds(name, '.');
  }

  // -----------------------------------------------------------------------
  // The upload form

  /** What the form holds when submitted. The date is already rendered as
      `yyyy-MM-dd`. */
  datatype FormInput = FormInput(date: Nullable<string>, occasion: Nullable<string>, photos: seq<FileItem>)

  datatype PhotoUploadForm = PhotoUploadForm(date: string, occasion: Nullable<string>, photos: seq<FileItem>)

  datatype Validation = Valid(form: PhotoUploadForm) | Invalid(errors: seq<string>)

  const DateRequired: string := "Date is required"
  const OccasionRequired: string := "Occasion is required"
  const PhotosRequired: string := "At least one photo is required"

  /** The schema: a date is required, an occasion, when present, has at
      least one character, and at least one photo is chosen. Every failed
      rule reports its message, in field order. */
  function ValidateForm(input: FormInput): (v: Validation)
    ensures v.Valid? <==>
      input.date.Some? && (input.occasion.Null? || |input.occasion.value| >= 1) && |input.photos| >= 1
    ensures v.Valid? ==> v.form == PhotoUploadForm(input.date.value, input.occasion, input.photos)
    ensures v.Invalid? ==>
      && (DateRequired in v.errors <==> input.date.Null?)
      && (PhotosRequired in v.errors <==> |input.photos| == 0)
  {
    var errors :=
      (if input.date.Null? then [DateRequired] else []) +
      (if input.occasion.Some? && |input.occasion.value| < 1 then [OccasionRequired] else []) +
      (if |input.photos| < 1 then [PhotosRequired] else []);
    if errors == [] then Valid(PhotoUploadForm(input.date.value, input.occasion, input.photos))
    else Invalid(errors)
  }

  // -----------------------------------------------------------------------
  // Submission

  /** The storage service's answer to one upload. */
  datatype UploadAnswer = Uploaded(publicUrl: string) | UploadFailed(message: Nullable<string>)

  /** The database's error on insert. */
  datatype DbError = DbError(message: Nullable<string>)

  datatype PhotoEntry = PhotoEntry(imageUrl: string, alt: string)

  /** Calls a submission makes, in order. */
  datatype Action =
    | Upload(directory: string, ext: string, file: FileItem)
    | Insert(date: string, occasion: Nullable<string>, photos: seq<PhotoEntry>)

  datatype Toast = Success(description: string) | Failure(description: string)

  /** What a submission leaves behind: the calls made, the toast shown, the
      selected files, the values the form holds, and the uploading flag. */
  datatype Submission = Submission(actions: seq<Action>, toast: Toast, selected: seq<FileItem>, fields: FormInput, uploading: bool)

  /** The form's values after a successful submission: no date, the empty
      occasion, no photos. */
  const ResetFields: FormInput := FormInput(Null, Some(""), [])

  /** A reset form does not validate again until it is filled in: every rule
      fails, the empty occasion included. */
  lemma ResetFieldsInvalid()
    ensures ValidateForm(ResetFields) == Invalid([DateRequired, OccasionRequired, PhotosRequired])
  {
  }

  const UploadFallbackMessage: string := "Failed to upload photos"

  /** The upload of the `i`-th photo: into the date's folder, named with
      the photo's extension. */
  function UploadOf(form: PhotoUploadForm, i: nat): Action
    requires i < |form.photos|
  {
    Upload("photos/" + form.date, Extension(form.photos[i].name), form.photos[i])
  }

  /** The uploads of the first `n` photos, in photo order. */
  function Uploads(form: PhotoUploadForm, n: nat): (r: seq<Action>)
    requires n <= |form.photos|
    ensures |r| == n
    ensures forall k :: 0 <= k < n ==> r[k] == UploadOf(form, k)
  {
    if n == 0 then [] else Uploads(form, n - 1) + [UploadOf(form, n - 1)]
  }

  /** The row entries of the first `n` photos: each uploaded file's public
      address with the file's name as its alt text. */
  function Entries(form: PhotoUploadForm, answers: seq<UploadAnswer>, n: nat): (r: seq<PhotoEntry>)
    requires n <= |form.photos| && n <= |answers|
    requires forall k :: 0 <= k < n ==> answers[k].Uploaded?
    ensures |r| == n
    ensures forall k :: 0 <= k < n ==> r[k] == PhotoEntry(answers[k].publicUrl, form.photos[k].name)
  {
    if n == 0 then [] else Entries(form, answers, n - 1) + [PhotoEntry(answers[n - 1].publicUrl, form.photos[n - 1].name)]
  }

  /** How many answers, from the first, are successful uploads. */
  function LeadingUploaded(answers: seq<UploadAnswer>): (n: nat)
    ensures n <= |answers|
    ensures forall i :: 0 <= i < n ==> answers[i].Uploaded?
    ensures n < |answers| ==> answers[n].UploadFailed?
  {
    if |answers| == 0 || answers[0].UploadFailed? then 0
    else 1 + LeadingUploaded(answers[1..])
  }

  /** `onSubmit(data)`: upload each photo in order, stopping at the first
      failure, whose upload was still attempted; only when every upload
      succeeded, insert one row carrying one entry per photo, in photo
      order. `answers[i]` is the storage service's answer to the `i`-th
      upload; `fields` are the values the form holds. Success clears the
      selection and resets the form; failure keeps both. */
  method Submit(form: PhotoUploadForm, selected: seq<FileItem>, fields: FormInput, answers: seq<UploadAnswer>, dbAnswer: Nullable<DbError>)
    returns (out: Submission)
    requires |answers| == |form.photos|
    ensures !out.uploading
    ensures var n := LeadingUploaded(answers);
      n < |form.photos| ==>
        && out.actions == Uploads(form, n + 1)
        && out.toast == Failure(Or(answers[n].message, UploadFallbackMessage))
    ensures var n := LeadingUploaded(answers);
      n == |form.photos| ==>
        && out.actions == Uploads(form, n) + [Insert(form.date, OrNull(form.occasion), Entries(form, answers, n))]
        && (dbAnswer.Null? ==>
              out.toast == Success(Decimal(n) + " photo(s) uploaded successfully!"))
        && (dbAnswer.Some? ==>
              out.toast == Failure(Or(dbAnswer.value.message, UploadFallbackMessage)))
    ensures out.toast.Success? ==> out.selected == [] && out.fields == ResetFields
    ensures out.toast.Failure? ==> out.selected == selected && out.fields == fields
  {
    var actions, entries, i := UploadWhileAccepted(form, answers);
    if i < |form.photos| {
      // the rejected upload was attempted too, and nothing is inserted
      actions := actions + [UploadOf(form, i)];
      out := Submission(actions, Failure(Or(answers[i].message, UploadFallbackMessage)), selected, fields, false);
    } else {
      actions := actions + [Insert(form.date, OrNull(form.occasion), entries)];
      match dbAnswer
      case Some(e) =>
        out := Submission(actions, Failure(Or(e.message, UploadFallbackMessage)), selected, fields, false);
      case Null =>
        out := Submission(actions, Success(Decimal(|form.photos|) + " photo(s) uploaded successfully!"), [], ResetFields, false);
    }
  }

  /** The upload loop of `onSubmit`: upload the photos in order while the
      storage service accepts them, collecting one row entry per accepted
      photo. It stops before the first rejected upload, at `i`. */
  method UploadWhileAccepted(form: PhotoUploadForm, answers: seq<UploadAnswer>)
    returns (actions: seq<Action>, entries: seq<PhotoEntry>, i: nat)
    requires |answers| == |form.photos|
    ensures i == LeadingUploaded(answers)
    ensures actions == Uploads(form, i)
    ensures entries == Entries(form, answers, i)
  {
    actions, entries, i := [], [], 0;
    while i < |form.photos| && answers[i].Uploaded?
      invariant 0 <= i <= LeadingUploaded(answers)
      invariant actions == Uploads(form, i)
      invariant entries == Entries(form, answers, i)
    {
      actions := actions + [UploadOf(form, i)];
      entries := entries + [PhotoEntry(answers[i].publicUrl, form.photos[i].name)];
      i := i + 1;
    }
  }
}
