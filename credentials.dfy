/** The admin credential file `data/database.csv`: src/setup.js writes a header line and one
    admin line `email,hash`, and `validateCredentials` of src/lib/utils/credentials.ts checks
    a login against that second line. bcrypt's `compareSync` is the parameter `matches`. */
module AdminCredentials {
  import opened Wrappers
  import opened Text
  import opened FileIo

  /** The admin email setup writes. */
  const SetupEmail: string := "admin@example.com"

  /** The password setup hashes into the file. */
  const SetupPassword: string := "admin123"

  /** The header line of the admin file. */
  const SetupHeader: string := "email,password"

  /** The content setup writes, given the bcrypt hash of the default password: the header
      line, then the admin line `email,hash`, with no final newline. */
  function SetupContent(email: string, hash: string): (content: string)
    ensures '\n' !in email && '\n' !in hash ==> AdminLine(content) == Some(email + "," + hash)
  {
    var line := email + "," + hash;
    assert '\n' !in email && '\n' !in hash ==> AdminLine(SetupHeader + "\n" + line) == Some(line) by {
      if '\n' !in email && '\n' !in hash {
        assert '\n' !in line;
        OnlySecondLineCounts(SetupHeader, line, "");
      }
    }
    SetupHeader + "\n" + line
  }

  /** `const [, adminLine] = fileContent.split('\n')`: the second line, `undefined` when the
      content has a single line. */
  function AdminLine(content: string): (line: Option<string>)
    ensures line.None? <==> '\n' !in content
    ensures line.Some? ==> '\n' !in line.value
  {
    SplitSingle(content, '\n');
    var lines := Split(content, '\n');
    if |lines| >= 2 then Some(lines[1]) else None
  }

  /** The decision on the admin line: an absent or empty line rejects; otherwise its first
      comma field must equal `email`, and then the password is checked against the second
      field. A line without a second field leaves the hash `undefined`, on which
      `compareSync` throws, and the thrown error is turned into `false`. */
  function CheckAdminLine(adminLine: Option<string>, email: string, password: string, matches: (string, string) -> bool): (ok: bool)
    ensures ok ==> adminLine.Some? && email + "," <= adminLine.value
  {
    match adminLine
    case None => false
    case Some(line) =>
      if line == "" then false
      else
        var fields := Split(line, ',');
        if email != fields[0] then false
        else if |fields| < 2 then false
        else
          SplitHead(line, ',');
          matches(password, fields[1])
  }

  /** `validateCredentials`: any read error gives `false`, so the function never throws. */
  function ValidateCredentials(read: ReadResult, email: string, password: string, matches: (string, string) -> bool): (ok: bool)
    ensures ok ==> read.Contents? && AdminLine(read.text).Some? && email + "," <= AdminLine(read.text).value
  {
    match read
    case Contents(content) => CheckAdminLine(AdminLine(content), email, password, matches)
    case NotFound => false
    case ReadFailed => false
  }

  /** Only the second line is consulted: it is found whatever the first line says, and
      anything after it is ignored; a single-line file has no admin line. */
  lemma {:induction false} OnlySecondLineCounts(first: string, line: string, rest: string)
    requires '\n' !in first && '\n' !in line
    ensures AdminLine(first) == None
    ensures AdminLine(first + "\n" + line) == Some(line)
    ensures AdminLine(first + "\n" + line + "\n" + rest) == Some(line)
  {
    SplitWithoutSeparator(first, '\n');
    SplitWithoutSeparator(line, '\n');
    SplitAround(first, line, '\n');
    assert first + "\n" + line == first + ['\n'] + line;
    SplitAround(line, rest, '\n');
    SplitAround(first, line + ['\n'] + rest, '\n');
    assert first + "\n" + line + "\n" + rest == first + ['\n'] + (line + ['\n'] + rest);
  }

  /** A missing or empty second line rejects every login. */
  lemma MissingAdminLineRejects(content: string, email: string, password: string, matches: (string, string) -> bool)
    requires AdminLine(content) == None || AdminLine(content) == Some("")
    ensures !ValidateCredentials(Contents(content), email, password, matches)
  {
  }

  /** Another email than the stored one is rejected, whatever the password check would say. */
  lemma OtherEmailRejects(content: string, line: string, email: string, password: string, matches: (string, string) -> bool)
    requires AdminLine(content) == Some(line) && email != Split(line, ',')[0]
    ensures !ValidateCredentials(Contents(content), email, password, matches)
  {
  }

  /** Any file whose admin line starts with the login's email as its first comma field and
      has a second field: the answer is the password check against that second field. */
  lemma AdminLineDecides(content: string, line: string, email: string, password: string, matches: (string, string) -> bool)
    requires AdminLine(content) == Some(line) && line != ""
    requires |Split(line, ',')| >= 2 && email == Split(line, ',')[0]
    ensures ValidateCredentials(Contents(content), email, password, matches) == matches(password, Split(line, ',')[1])
  {
  }

  /** An admin line without a comma has no hash field: the hash is `undefined`, the thrown
      comparison error is caught, and every login is rejected. */
  lemma MissingHashRejects(content: string, line: string, email: string, password: string, matches: (string, string) -> bool)
    requires AdminLine(content) == Some(line) && ',' !in line
    ensures !ValidateCredentials(Contents(content), email, password, matches)
  {
    SplitSingle(line, ',');
  }

  /** The admin line setup writes is one line, and it splits into exactly the email and
      the hash. */
  lemma {:induction false} SetupLineFields(email: string, hash: string)
    requires ',' !in email && '\n' !in email && ',' !in hash && '\n' !in hash
    ensures '\n' !in email + "," + hash && email + "," + hash != ""
    ensures Split(email + "," + hash, ',') == [email, hash]
  {
    var line := email + "," + hash;
    assert line == Join([email, hash], ',');
    JoinAvoids([email, hash], ',', '\n');
    SplitJoin([email, hash], ',');
    assert line[|email|] == ',';
  }

  /** Round trip with setup's format: for an email and a hash free of commas and newlines,
      the admin line is read back as exactly that email and hash, and a login succeeds iff
      it names that email and the password matches that hash. */
  lemma {:induction false} SetupContentRoundTrip(email: string, hash: string, login: string, password: string, matches: (string, string) -> bool)
    requires ',' !in email && '\n' !in email && ',' !in hash && '\n' !in hash
    ensures AdminLine(SetupContent(email, hash)) == Some(email + "," + hash)
    ensures Split(email + "," + hash, ',') == [email, hash]
    ensures ValidateCredentials(Contents(SetupContent(email, hash)), login, password, matches) ==
      (login == email && matches(password, hash))
  {
    SetupLineFields(email, hash);
  }

  /** After setup, the default admin is admitted exactly when the password matches the hash
      setup stored. */
  lemma DefaultAdmin(hash: string, password: string, matches: (string, string) -> bool)
    requires ',' !in hash && '\n' !in hash
    ensures AdminLine(SetupContent(SetupEmail, hash)) == Some(SetupEmail + "," + hash)
    ensures ValidateCredentials(Contents(SetupContent(SetupEmail, hash)), SetupEmail, password, matches) == matches(password, hash)
  {
    SetupContentRoundTrip(SetupEmail, hash, SetupEmail, password, matches);
  }
}
