/**
 * The edit-profile form: checks the display name, password and confirmation
 * in a fixed order, and sends only the fields that changed.
 */
module EditProfileForm {
  import opened Wrappers
  import opened UserTypes

  /** The characters `String.prototype.trim` removes: white space and line terminators. */
  const JsWhitespace: set<char> := {
    '\t', '\n', '\U{000B}', '\U{000C}', '\r', ' ', '\U{00A0}', '\U{1680}',
    '\U{2000}', '\U{2001}', '\U{2002}', '\U{2003}', '\U{2004}', '\U{2005}',
    '\U{2006}', '\U{2007}', '\U{2008}', '\U{2009}', '\U{200A}',
    '\U{2028}', '\U{2029}', '\U{202F}', '\U{205F}', '\U{3000}', '\U{FEFF}'
  }

  predicate IsJsWhitespace(c: char) {
    c in JsWhitespace
  }

  function TrimStart(s: string): (r: string)
    ensures |r| <= |s| && r == s[|s| - |r|..]
    ensures r == [] || !IsJsWhitespace(r[0])
    ensures forall i :: 0 <= i < |s| - |r| ==> IsJsWhitespace(s[i])
    decreases |s|
  {
    if s != [] && IsJsWhitespace(s[0]) then TrimStart(s[1..]) else s
  }

  function TrimEnd(s: string): (r: string)
    ensures |r| <= |s| && r == s[..|r|]
    ensures r == [] || !IsJsWhitespace(r[|r| - 1])
    ensures forall i :: |r| <= i < |s| ==> IsJsWhitespace(s[i])
    decreases |s|
  {
    if s != [] && IsJsWhitespace(s[|s| - 1]) then TrimEnd(s[..|s| - 1]) else s
  }

  function Trim(s: string): string {
    TrimEnd(TrimStart(s))
  }

  /** Whether the string begins or ends with white space. */
  predicate Padded(s: string) {
    s != [] && (IsJsWhitespace(s[0]) || IsJsWhitespace(s[|s| - 1]))
  }

  /** Trimming changes nothing exactly when neither end is white space. */
  lemma TrimIdentity(s: string)
    ensures Trim(s) == s <==> !Padded(s)
  {
    var t := TrimStart(s);
    if Trim(s) == s && s != [] {
      assert |t| == |s|;
    }
  }

  /** A string trims to nothing exactly when it is all white space. */
  lemma TrimEmpty(s: string)
    ensures Trim(s) == [] <==> forall i :: 0 <= i < |s| ==> IsJsWhitespace(s[i])
  {
    var t := TrimStart(s);
    if Trim(s) == [] {
      forall i | 0 <= i < |s| ensures IsJsWhitespace(s[i]) {
        if i >= |s| - |t| {
          assert s[i] == t[i - (|s| - |t|)];
        }
      }
    }
  }

  /** The checks a submission can fail, in the order they are made. */
  datatype Problem = NoChanges | DisplayPadded | DisplayBlank | PasswordPadded | PasswordMismatch

  /** The message the form shows for each failed check. */
  function Message(p: Problem): string {
    match p
    case NoChanges => "No changes to submit"
    case DisplayPadded => "Display names can't begin or end with whitespace"
    case DisplayBlank => "Please enter a display name"
    case PasswordPadded => "Passwords can't begin or end with whitespace"
    case PasswordMismatch => "Passwords don't match"
  }

  /** The first failed check of a submission. */
  function FirstProblem(userDisplay: string, display: string, password: string, confirm: string): Option<Problem> {
    if userDisplay == display && password == confirm && password == "" then Some(NoChanges)
    else if Trim(display) != display then Some(DisplayPadded)
    else if Trim(display) == "" then Some(DisplayBlank)
    else if Trim(password) != password then Some(PasswordPadded)
    else if password != confirm then Some(PasswordMismatch)
    else None
  }

  /** The fields of the request: only those that differ from what the user has. */
  function Updates(userDisplay: string, display: string, password: string): UserUpdate {
    UserUpdate(if display != userDisplay then Some(display) else None,
               if password != "" then Some(password) else None)
  }

  /** A submission passes every check exactly when all of these hold. */
  lemma AcceptedIff(userDisplay: string, display: string, password: string, confirm: string)
    ensures FirstProblem(userDisplay, display, password, confirm).None? <==>
      && (display != userDisplay || password != "")
      && display != [] && !Padded(display)
      && !Padded(password)
      && password == confirm
  {
    TrimIdentity(display);
    TrimIdentity(password);
  }

  /** An accepted submission sends a request that changes something, and only the fields that changed. */
  lemma AcceptedSendsChange(userDisplay: string, display: string, password: string, confirm: string)
    requires FirstProblem(userDisplay, display, password, confirm).None?
    ensures var u := Updates(userDisplay, display, password);
      && (u.display.Some? || u.password.Some?)
      && (u.display.Some? ==> u.display.value != userDisplay && Trim(u.display.value) == u.display.value != "")
      && (u.password.Some? ==> u.password.value == confirm && Trim(u.password.value) == u.password.value)
  {
  }

  /** Whether the form differs from what the user has, as the first check sees it. */
  predicate Changed(userDisplay: string, display: string, password: string, confirm: string) {
    !(userDisplay == display && password == confirm && password == "")
  }

  /**
   * Each message appears exactly when the earlier checks pass and its own
   * fails; in particular the blank-name check only sees the empty name.
   */
  lemma ProblemIff(userDisplay: string, display: string, password: string, confirm: string)
    ensures var p := FirstProblem(userDisplay, display, password, confirm);
      && (p == Some(NoChanges) <==> !Changed(userDisplay, display, password, confirm))
      && (p == Some(DisplayPadded) <==> Changed(userDisplay, display, password, confirm) && Padded(display))
      && (p == Some(DisplayBlank) <==> Changed(userDisplay, display, password, confirm) && display == "")
      && (p == Some(PasswordPadded) <==>
            Changed(userDisplay, display, password, confirm) && display != "" && !Padded(display) && Padded(password))
      && (p == Some(PasswordMismatch) <==>
            && Changed(userDisplay, display, password, confirm) && display != "" && !Padded(display)
            && !Padded(password) && password != confirm)
  {
    var p := FirstProblem(userDisplay, display, password, confirm);
    TrimIdentity(display);
    TrimIdentity(password);
    if !Changed(userDisplay, display, password, confirm) {
      assert p == Some(NoChanges);
    } else if Padded(display) {
      assert Trim(display) != display;
      assert p == Some(DisplayPadded);
    } else {
      assert Trim(display) == display;
      if display == "" {
        assert p == Some(DisplayBlank);
      } else if Padded(password) {
        assert p == Some(PasswordPadded);
      } else {
        assert Trim(password) == password;
        assert p == (if password != confirm then Some(PasswordMismatch) else None);
      }
    }
  }

  class EditProfile {
    const userDisplay: string
    var display: string
    var password: string
    var confirm: string
    var err: Option<string>
    /** Whether the login context has been reset, which reloads the user. */
    var resetRequested: bool

    constructor (userDisplay: string)
      ensures this.userDisplay == userDisplay && display == userDisplay
      ensures password == "" && confirm == "" && err.None? && !resetRequested
    {
      this.userDisplay := userDisplay;
      display := userDisplay;
      password, confirm := "", "";
      err := None;
      resetRequested := false;
    }

    /**
     * The submit handler: the checks in order, then the update built field by
     * field. `serverError` is what the update call answers: an error message,
     * or none on success. The request is returned when one is sent.
     */
    method HandleSubmit(serverError: Option<string>) returns (request: Option<UserUpdate>)
      modifies this`err, this`resetRequested
      ensures var p := FirstProblem(userDisplay, display, password, confirm);
        && (p.Some? ==> request.None? && err == Some(Message(p.value)) && resetRequested == old(resetRequested))
        && (p.None? ==> request == Some(Updates(userDisplay, display, password)))
        && (p.None? && serverError.Some? ==> err == serverError && resetRequested == old(resetRequested))
        && (p.None? && serverError.None? ==> err == old(err) && resetRequested)
    {
      request := None;
      var problem := FirstProblem(userDisplay, display, password, confirm);
      if problem.Some? {
        err := Some(Message(problem.value));
        return;
      }
      var updates := UserUpdate(None, None);
      if display != userDisplay {
        updates := updates.(display := Some(display));
      }
      if password != "" {
        updates := updates.(password := Some(password));
      }
      request := Some(updates);
      if serverError.Some? {
        err := serverError;
        return;
      }
      resetRequested := true;
    }
  }
}
