/** `validateCredentials` of src/lib/auth.ts: the credentials check of the admin file, with
    one recovery. When the first read fails with ENOENT it runs the setup script and reads
    again; running the script and the second read are passed in as one outcome. */
module Auth {
  import opened Wrappers
  import opened FileIo
  import opened Text
  import opened AdminCredentials

  /** `first` is the first read; `afterSetup` is the second read after `npm run setup`,
      where a failing setup script counts as a failed read. Any error ends in `false`. */
  function ValidateWithSetup(first: ReadResult, afterSetup: ReadResult, email: string, password: string,
                             matches: (string, string) -> bool): (ok: bool)
    ensures first.ReadFailed? ==> !ok
    ensures ok ==> first.Contents? || afterSetup.Contents?
    ensures ok ==> var text := if first.Contents? then first.text else afterSetup.text;
      AdminLine(text).Some? && email + "," <= AdminLine(text).value
  {
    match first
    case Contents(content) => CheckAdminLine(AdminLine(content), email, password, matches)
    case NotFound =>
      (match afterSetup
       case Contents(content) => CheckAdminLine(AdminLine(content), email, password, matches)
       case NotFound => false
       case ReadFailed => false)
    case ReadFailed => false
  }

  /** When the file exists, or cannot be read for another reason than ENOENT, the result is
      that of the plain credentials check; after ENOENT it is that check on the second read. */
  lemma AgreesWithPlainCheck(first: ReadResult, afterSetup: ReadResult, email: string, password: string,
                             matches: (string, string) -> bool)
    ensures !first.NotFound? ==> ValidateWithSetup(first, afterSetup, email, password, matches) == ValidateCredentials(first, email, password, matches)
    ensures first.NotFound? ==> ValidateWithSetup(first, afterSetup, email, password, matches) == ValidateCredentials(afterSetup, email, password, matches)
  {
  }

  /** The retry applies the same rule as the first attempt: the same content gives the same
      answer on either path. */
  lemma RetryUsesSameRule(content: string, other: ReadResult, email: string, password: string,
                          matches: (string, string) -> bool)
    ensures ValidateWithSetup(NotFound, Contents(content), email, password, matches) ==
      ValidateWithSetup(Contents(content), other, email, password, matches)
  {
  }

  /** On both paths, a missing or empty admin line and a different email reject the login
      whatever the password check would say; errors reject it too. */
  lemma RejectionsOnBothPaths(content: string, other: ReadResult, email: string, password: string,
                              matches: (string, string) -> bool)
    requires AdminLine(content) == None || AdminLine(content) == Some("")
      || (AdminLine(content).Some? && email != Split(AdminLine(content).value, ',')[0])
    ensures !ValidateWithSetup(Contents(content), other, email, password, matches)
    ensures !ValidateWithSetup(NotFound, Contents(content), email, password, matches)
    ensures !ValidateWithSetup(ReadFailed, other, email, password, matches)
    ensures !ValidateWithSetup(NotFound, ReadFailed, email, password, matches)
  {
  }

  /** When the file was missing and setup wrote it, the default admin is admitted exactly
      when the password matches the hash setup stored, and nobody else is. */
  lemma SetupRecoveryAdmitsDefaultAdmin(hash: string, email: string, password: string, matches: (string, string) -> bool)
    requires ',' !in hash && '\n' !in hash
    ensures ValidateWithSetup(NotFound, Contents(SetupContent(SetupEmail, hash)), email, password, matches) ==
      (email == SetupEmail && matches(password, hash))
  {
    SetupContentRoundTrip(SetupEmail, hash, email, password, matches);
  }
}
