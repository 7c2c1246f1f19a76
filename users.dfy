/** The users flat file `data/users.csv` of src/app/api/users/route.ts: `GET` parses it
    into user records, `POST` creates it with a header line and appends one record line. */
module UsersRoute {
  import opened Wrappers
  import opened Text
  import opened FileIo

  /** A parsed row. A column that a short row lacks is `undefined` after destructuring. */
  datatype User = User(
    id: Option<string>,
    email: Option<string>,
    username: Option<string>,
    password: Option<string>,
    createdAt: Option<string>)

  /** The record `POST` writes: a fresh id, the request's email and username, the bcrypt
      hash of the password and an ISO timestamp. */
  datatype NewUser = NewUser(
    id: string,
    email: string,
    username: string,
    hashedPassword: string,
    createdAt: string)

  /** The column names, in the order the parser assigns fields. */
  const Columns: seq<string> := ["id", "email", "username", "password", "createdAt"]

  /** The first line `POST` writes into a new file. */
  const Header: string := "id,email,username,password,createdAt\n"

  /** Element `i` of an array, `undefined` past its end. */
  function FieldAt(fields: seq<string>, i: nat): Option<string>
  {
    if i < |fields| then Some(fields[i]) else None
  }

  /** `const [id, email, username, password, createdAt] = line.split(',')`. */
  function ToUser(line: string): (user: User)
    ensures user.id.Some?
    ensures user.email.Some? <==> ',' in line
    ensures user.createdAt.Some? ==> user.password.Some?
    ensures user.password.Some? ==> user.username.Some?
    ensures user.username.Some? ==> user.email.Some?
  {
    SplitSingle(line, ',');
    var f := Split(line, ',');
    User(FieldAt(f, 0), FieldAt(f, 1), FieldAt(f, 2), FieldAt(f, 3), FieldAt(f, 4))
  }

  /** `rows.map(...)` with the destructuring above. */
  function ToUsers(rows: seq<string>): seq<User>
  {
    seq(|rows|, i requires 0 <= i < |rows| => ToUser(rows[i]))
  }

  /** The parse in `GET` (and, duplicated, in the login route): split into lines, skip the
      header, drop blank lines, map each line to a record. */
  function ParseUsers(content: string): (users: seq<User>)
    ensures |users| == CountNonBlank(Split(content, '\n')[1..])
    ensures forall i :: 0 <= i < |users| ==> users[i].id.Some?
  {
    NonBlankLength(Split(content, '\n')[1..]);
    ToUsers(NonBlank(Split(content, '\n')[1..]))
  }

  /** What `GET` answers: `{ users }`, or a 500 with an error message. */
  datatype UsersResponse = UserList(users: seq<User>) | ServerError(message: string)
  {
    function Status(): int
    {
      if UserList? then 200 else 500
    }
  }

  const GetFailedMessage: string := "Failed to get users"

  /** `GET`: a missing file is an empty list; any other read error is a 500. */
  function GetUsers(read: ReadResult): (r: UsersResponse)
    ensures read.NotFound? ==> r == UserList([])
    ensures read.ReadFailed? ==> r.Status() == 500 && r == ServerError(GetFailedMessage)
    ensures read.Contents? ==> r == UserList(ParseUsers(read.text))
  {
    match read
    case Contents(content) => UserList(ParseUsers(content))
    case NotFound => UserList([])
    case ReadFailed => ServerError(GetFailedMessage)
  }

  /** The line `POST` appends: the five fields separated by commas, then a newline. */
  function RecordLine(u: NewUser): (line: string)
    ensures EndsWithNewline(line)
    ensures CleanFields(u) ==> '\n' !in line[..|line| - 1]
  {
    var row := u.id + "," + u.email + "," + u.username + "," + u.hashedPassword + "," + u.createdAt;
    assert Fields(u)[0] == u.id && Fields(u)[1] == u.email && Fields(u)[2] == u.username
      && Fields(u)[3] == u.hashedPassword && Fields(u)[4] == u.createdAt;
    assert (row + "\n")[..|row|] == row;
    row + "\n"
  }

  function Fields(u: NewUser): seq<string>
  {
    [u.id, u.email, u.username, u.hashedPassword, u.createdAt]
  }

  /** The record `GET` should read back for `u`. */
  function Stored(u: NewUser): User
  {
    User(Some(u.id), Some(u.email), Some(u.username), Some(u.hashedPassword), Some(u.createdAt))
  }

  /** No field holds a comma or a newline, so the line format cannot shift it. */
  predicate CleanFields(u: NewUser)
  {
    Clean(Fields(u), ',') && Clean(Fields(u), '\n')
  }

  /** The shape `POST` keeps the file in: every line it wrote is terminated. */
  predicate EndsWithNewline(content: string)
  {
    |content| > 0 && content[|content| - 1] == '\n'
  }

  lemma ToUsersAppend(a: seq<string>, b: seq<string>)
    ensures ToUsers(a + b) == ToUsers(a) + ToUsers(b)
  {
  }

  /** The record line is the comma join of the five fields, newline-terminated. */
  lemma RecordLineIsJoin(u: NewUser)
    ensures RecordLine(u) == Join(Fields(u), ',') + "\n"
  {
    var f := Fields(u);
    assert Join(f[4..], ',') == u.createdAt;
    assert Join(f[3..], ',') == u.hashedPassword + "," + u.createdAt by {
      assert f[3..][1..] == f[4..];
    }
    assert Join(f[2..], ',') == u.username + "," + u.hashedPassword + "," + u.createdAt by {
      assert f[2..][1..] == f[3..];
    }
    assert Join(f[1..], ',') == u.email + "," + u.username + "," + u.hashedPassword + "," + u.createdAt by {
      assert f[1..][1..] == f[2..];
    }
  }

  /** Fields are assigned by position: a row of separator-free fields yields its first five
      fields in order, `undefined` for those it lacks, and ignores any beyond the fifth. */
  lemma ColumnsArePositional(fields: seq<string>)
    requires |fields| >= 1 && Clean(fields, ',')
    ensures ToUser(Join(fields, ',')) ==
      User(FieldAt(fields, 0), FieldAt(fields, 1), FieldAt(fields, 2), FieldAt(fields, 3), FieldAt(fields, 4))
  {
    SplitJoin(fields, ',');
  }

  /** No column name holds a comma or a newline. */
  lemma ColumnsAreClean()
    ensures Clean(Columns, ',') && Clean(Columns, '\n')
  {
    forall i | 0 <= i < |Columns|
      ensures ',' !in Columns[i] && '\n' !in Columns[i]
    {
      assert Columns[i] in Columns;
    }
  }

  /** The header line is the comma join of the column names, newline-terminated. */
  lemma HeaderIsColumnsLine()
    ensures Header == Join(Columns, ',') + "\n"
  {
  }

  /** Parsed as a row, the header would give each column its own name: the header and
      the parser agree on the column order. */
  lemma HeaderMatchesParser()
    ensures ToUser(Join(Columns, ',')) == User(Some("id"), Some("email"), Some("username"), Some("password"), Some("createdAt"))
  {
    ColumnsAreClean();
    ColumnsArePositional(Columns);
  }

  /** The file `POST` creates lists no users until a record is appended: its only line is
      the one `GET` skips. */
  lemma HeaderListsNoUsers()
    ensures EndsWithNewline(Header)
    ensures ParseUsers(Header) == []
  {
    HeaderIsColumnsLine();
    var first := Join(Columns, ',');
    ColumnsAreClean();
    JoinAvoids(Columns, ',', '\n');
    HeaderLineIgnored(first, "");
    assert Header == first + "\n" + "";
    assert NonBlank(Split("", '\n')) == [] by {
      assert IsBlank("");
    }
  }

  /** Whatever the first line says, it is skipped as the header. */
  lemma HeaderLineIgnored(header: string, rest: string)
    requires '\n' !in header
    ensures ParseUsers(header + "\n" + rest) == ToUsers(NonBlank(Split(rest, '\n')))
  {
    SplitAround(header, rest, '\n');
    SplitWithoutSeparator(header, '\n');
    assert header + "\n" + rest == header + ['\n'] + rest;
  }

  /** The lines of a terminated file end in an empty piece, which an appended line takes
      over before a new empty piece. */
  lemma SplitAppendedLine(content: string, line: string)
    requires EndsWithNewline(content) && '\n' !in line
    ensures var lines := Split(content, '\n');
      lines[|lines| - 1] == "" && Split(content + line + "\n", '\n') == lines[..|lines| - 1] + [line, ""]
  {
    var a := content[..|content| - 1];
    assert content == a + ['\n'] + "";
    assert content + line + "\n" == a + ['\n'] + (line + ['\n'] + "");
    SplitAround(a, "", '\n');
    SplitAround(a, line + ['\n'] + "", '\n');
    SplitAround(line, "", '\n');
    SplitWithoutSeparator(line, '\n');
    var lines := Split(a, '\n');
    assert Split(content, '\n') == lines + [""];
    assert (lines + [""])[..|lines|] == lines;
  }

  /** Appending one line to a terminated file adds exactly that line's record after all
      earlier ones, or nothing when the line is blank. */
  lemma {:induction false} AppendLine(content: string, line: string)
    requires EndsWithNewline(content) && '\n' !in line
    ensures ParseUsers(content + line + "\n") ==
      ParseUsers(content) + (if IsBlank(line) then [] else [ToUser(line)])
  {
    var lines := Split(content, '\n');
    SplitAppendedLine(content, line);
    var body := lines[1..|lines| - 1];
    assert lines[1..] == body + [""];
    assert (lines[..|lines| - 1] + [line, ""])[1..] == body + [line] + [""];
    assert NonBlank([""]) == [] by {
      assert IsBlank("");
    }
    NonBlankAppend(body, [""]);
    NonBlankAppend(body + [line], [""]);
    NonBlankAppend(body, [line]);
    ToUsersAppend(NonBlank(body), NonBlank([line]));
  }

  /** Round trip: a record `POST` appends to a terminated file, with fields free of commas and
      newlines, is read back by `GET` with identical fields, after every earlier record. */
  lemma {:induction false} AppendedUserReadBack(content: string, u: NewUser)
    requires EndsWithNewline(content) && CleanFields(u)
    ensures ParseUsers(content + RecordLine(u)) == ParseUsers(content) + [Stored(u)]
  {
    var f := Fields(u);
    var row := Join(f, ',');
    RecordLineIsJoin(u);
    ColumnsArePositional(f);
    JoinAvoids(f, ',', '\n');
    assert !IsBlank(row) by {
      assert f == [u.id] + f[1..];
      assert row == u.id + [','] + Join(f[1..], ',');
      assert row[|u.id|] == ',';
    }
    assert content + RecordLine(u) == content + row + "\n";
    AppendLine(content, row);
  }

  /** `fs.readFile` on the users file; `None` when it does not exist. */
  function ReadFile(file: Option<string>): ReadResult
  {
    if file.Some? then Contents(file.value) else NotFound
  }

  /** The file after `POST`: the header line first if the file was missing, then the new
      record line after whatever was there. */
  function Posted(file: Option<string>, u: NewUser): (content: string)
    ensures EndsWithNewline(content)
    ensures (if file.None? then Header else file.value) <= content
    ensures |RecordLine(u)| <= |content| && content[|content| - |RecordLine(u)|..] == RecordLine(u)
  {
    (if file.None? then Header else file.value) + RecordLine(u)
  }

  /** `POST` then `GET`: the listing is the earlier listing followed by the new user, and
      the file stays terminated for the next append. */
  lemma {:induction false} PostThenGet(file: Option<string>, u: NewUser)
    requires file.Some? ==> EndsWithNewline(file.value)
    ensures EndsWithNewline(Posted(file, u))
    ensures CleanFields(u) ==> GetUsers(Contents(Posted(file, u))) == UserList(GetUsers(ReadFile(file)).users + [Stored(u)])
  {
    var before := if file.None? then Header else file.value;
    HeaderListsNoUsers();
    assert GetUsers(ReadFile(file)).users == ParseUsers(before);
    if CleanFields(u) {
      AppendedUserReadBack(before, u);
    }
  }

  /** `data/users.csv` as `POST` leaves it; `None` while the file does not exist. */
  class UsersFile {
    var contents: Option<string>

    ghost predicate Valid()
      reads this
    {
      contents.Some? ==> EndsWithNewline(contents.value)
    }

    constructor ()
      ensures Valid() && contents == None
    {
      contents := None;
    }

    /** `POST`: create the file with the header line if it is missing, then append the
        record line; `GET` then lists every earlier user followed by the new one. */
    method Post(u: NewUser)
      requires Valid()
      modifies this
      ensures Valid()
      ensures contents == Some(Posted(old(contents), u))
      ensures CleanFields(u) ==> GetUsers(ReadFile(contents)) == UserList(GetUsers(ReadFile(old(contents))).users + [Stored(u)])
    {
      PostThenGet(contents, u);
      if contents.None? {
        contents := Some(Header);
      }
      var newLine := RecordLine(u);
      contents := Some(contents.value + newLine);
    }
  }
}
