/** The client's side of one SMDP connection (client.c): the command line
    tokeniser and dispatch of `do_command`, the request/reply handlers, the
    chunk loop of `receive_file` and the session loop of `main`.

    Standard input is a sequence of lines, each as `fgets` stores it;
    standard output is a sequence of `Note`s, one per message printed; the
    local file system is a map from path to contents. The pure functions
    below state, command by command, what the client sends, what it shows
    and what it saves; class `Terminal` is the imperative code, proved
    against them. */
module Client {
  import opened Smdp

  /** char buf[1024] */
  const BUF_SIZE: nat := 1024
  /** the block size of receive_file */
  const CHUNK: nat := 1024

  // ---------------------------------------------------------------------
  // Words of the command line

  /** The command words, in ASCII. */
  const LIST_WORD: Bytes := [0x6C, 0x69, 0x73, 0x74]                            // list
  const USER_WORD: Bytes := [0x75, 0x73, 0x65, 0x72]                            // user
  const PASS_WORD: Bytes := [0x70, 0x61, 0x73, 0x73]                            // pass
  const DOWNLOAD_WORD: Bytes := [0x64, 0x6F, 0x77, 0x6E, 0x6C, 0x6F, 0x61, 0x64] // download
  const RANDOM_WORD: Bytes := [0x72, 0x61, 0x6E, 0x64, 0x6F, 0x6D]              // random
  const EXIT_WORD: Bytes := [0x65, 0x78, 0x69, 0x74]                            // exit

  /** The delimiters given to strtok: space and newline. */
  predicate IsDelim(c: byte)
  {
    c == 0x20 || c == 0x0A
  }

  /** The bytes before the first delimiter. */
  function Word(s: Bytes): (w: Bytes)
    ensures w <= s && forall i :: 0 <= i < |w| ==> !IsDelim(w[i])
    ensures |w| < |s| ==> IsDelim(s[|w|])
  {
    if s == [] || IsDelim(s[0]) then [] else [s[0]] + Word(s[1..])
  }

  /** A token and the text strtok goes on from. */
  datatype Token = Token(text: Bytes, rest: Bytes)

  /** One call of strtok on what is left of the line: skip delimiters, take
      the word, and go on after the delimiter that ends it (strtok
      overwrites that one with a NUL). No word left: NULL. */
  function NextToken(s: Bytes): (r: Option<Token>)
    ensures r.None? <==> forall i :: 0 <= i < |s| ==> IsDelim(s[i])
    ensures r.Some? ==>
      r.value.text != [] && |r.value.rest| < |s| &&
      forall i :: 0 <= i < |r.value.text| ==> !IsDelim(r.value.text[i])
    decreases |s|
  {
    if s == [] then None
    else if IsDelim(s[0]) then NextToken(s[1..])
    else
      var w := Word(s);
      Some(Token(w, if |w| < |s| then s[|w| + 1..] else []))
  }

  /** The text of the next token, or NULL. */
  function Arg(s: Bytes): Option<Bytes>
  {
    match NextToken(s)
    case None => None
    case Some(t) => Some(t.text)
  }

  /** A word followed by a delimiter, and the text after it, split back
      apart: a command line is tokenised into the words typed. */
  lemma {:induction false} TokenOfWord(w: Bytes, d: byte, rest: Bytes)
    requires w != [] && forall i :: 0 <= i < |w| ==> !IsDelim(w[i])
    requires IsDelim(d)
    ensures NextToken(w + [d] + rest) == Some(Token(w, rest))
    ensures NextToken(w) == Some(Token(w, []))
  {
    WordOfWord(w, [d] + rest);
    assert w + [d] + rest == w + ([d] + rest);
    WordOfWord(w, []);
    assert w + [] == w;
  }

  /** strtok skips the delimiters in front of the first word: a line
      with leading spaces is tokenised as the line without them. */
  lemma {:induction false} LeadingDelimsSkipped(ds: Bytes, s: Bytes)
    requires forall i :: 0 <= i < |ds| ==> IsDelim(ds[i])
    ensures NextToken(ds + s) == NextToken(s)
    decreases |ds|
  {
    if ds == [] {
      assert ds + s == s;
    } else {
      assert (ds + s)[1..] == ds[1..] + s;
      LeadingDelimsSkipped(ds[1..], s);
    }
  }

  lemma {:induction false} WordOfWord(w: Bytes, tail: Bytes)
    requires forall i :: 0 <= i < |w| ==> !IsDelim(w[i])
    requires tail == [] || IsDelim(tail[0])
    ensures Word(w + tail) == w
  {
    if w != [] {
      assert (w + tail)[1..] == w[1..] + tail;
      WordOfWord(w[1..], tail);
    } else {
      assert w + tail == tail;
    }
  }

  // ---------------------------------------------------------------------
  // atoi

  /** isspace */
  predicate IsSpace(c: byte)
  {
    c == 0x20 || 0x09 <= c <= 0x0D
  }

  function DropSpaces(s: Bytes): (r: Bytes)
    ensures r == [] || !IsSpace(r[0])
  {
    if s != [] && IsSpace(s[0]) then DropSpaces(s[1..]) else s
  }

  /** The longest run of digits at the front. */
  function LeadingDigits(s: Bytes): (d: Bytes)
    ensures d <= s && forall i :: 0 <= i < |d| ==> IsDigit(d[i])
    ensures |d| < |s| ==> !IsDigit(s[|d|])
  {
    if s == [] || !IsDigit(s[0]) then [] else [s[0]] + LeadingDigits(s[1..])
  }

  /** The value of a run of decimal digits, most significant first. */
  function DigitsValue(d: Bytes): nat
    requires forall i :: 0 <= i < |d| ==> IsDigit(d[i])
  {
    if d == [] then 0
    else
      var last := d[|d| - 1];
      assert IsDigit(last);
      10 * DigitsValue(d[..|d| - 1]) + (last - 0x30)
  }

  /** atoi: white space, an optional sign, then as many digits as follow. */
  function Atoi(s: Bytes): int
  {
    var t := DropSpaces(s);
    if t != [] && t[0] == 0x2D then -(DigitsValue(LeadingDigits(t[1..])) as int)
    else if t != [] && t[0] == 0x2B then DigitsValue(LeadingDigits(t[1..]))
    else DigitsValue(LeadingDigits(t))
  }

  /** A run of digits, signed or not, reads as its value. */
  lemma AtoiOfDigits(d: Bytes)
    requires forall i :: 0 <= i < |d| ==> IsDigit(d[i])
    ensures Atoi(d) == DigitsValue(d)
    ensures Atoi([0x2D] + d) == -(DigitsValue(d) as int)
  {
    LeadingDigitsOfDigits(d);
    if d != [] {
      assert IsDigit(d[0]) && !IsSpace(d[0]);
    }
    assert DropSpaces(d) == d;
    var m := [0x2D] + d;
    assert m[0] == 0x2D && m[1..] == d;
    assert DropSpaces(m) == m;
  }

  lemma {:induction false} LeadingDigitsOfDigits(d: Bytes)
    requires forall i :: 0 <= i < |d| ==> IsDigit(d[i])
    ensures LeadingDigits(d) == d
  {
    if d != [] {
      LeadingDigitsOfDigits(d[1..]);
    }
  }

  // ---------------------------------------------------------------------
  // What the client shows

  /** One row of a listing as printed: the id, the name and the path. */
  datatype Listing = Listing(id: Bytes, name: Bytes, path: Bytes)

  /** A message printed on standard output. */
  datatype Note =
    | Echoed(text: Bytes)          // do_echo
    | Listed(row: Listing)         // one line of do_list
    | LoggedIn                     // "Successfully logged in"
    | LoginFailed                  // "Invalid username/password"
    | AccessDenied                 // "Access denied"
    | NoSuchFile                   // "No such file"
    | InvalidCommand(word: Bytes)  // "Invalid command %s"

  /** The lines do_list prints for some rows, in order. */
  function RowNotes(rows: seq<Listing>): (n: seq<Note>)
    ensures |n| == |rows|
  {
    if rows == [] then [] else RowNotes(rows[..|rows| - 1]) + [Listed(rows[|rows| - 1])]
  }

  /** The client's globals as far as the protocol goes. */
  datatype View = View(running: bool, shown: seq<Note>, files: map<Bytes, Bytes>)

  function Show(v: View, n: Note): View
  {
    v.(shown := v.shown + [n])
  }

  // ---------------------------------------------------------------------
  // Reading the server's replies

  /** What `printf("%s", buf)` shows after a string was read into the
      zeroed buffer: the string up to its first NUL. */
  function TakeShown(inp: Bytes): Read<Bytes>
  {
    match TakeStr(inp, BUF_SIZE)
    case Fail(f) => Fail(f)
    case Ok(s, rest) => Ok(CString(s), rest)
  }

  /** The reply do_echo expects: a tag it does not check, then a string. */
  function ParseEcho(inp: Bytes): Read<Bytes>
  {
    match TakeInt(inp)
    case Fail(f) => Fail(f)
    case Ok(_, rest) => TakeShown(rest)
  }

  /** One ROW frame as do_list reads it: a tag it does not check and three
      strings. */
  function ParseRow(inp: Bytes): Read<Listing>
  {
    match TakeInt(inp)
    case Fail(f) => Fail(f)
    case Ok(_, r0) =>
      match TakeShown(r0)
      case Fail(f) => Fail(f)
      case Ok(id, r1) =>
        match TakeShown(r1)
        case Fail(f) => Fail(f)
        case Ok(name, r2) =>
          match TakeShown(r2)
          case Fail(f) => Fail(f)
          case Ok(path, r3) => Ok(Listing(id, name, path), r3)
  }

  /** n ROW frames, in order. */
  function ParseRows(inp: Bytes, n: nat): (r: Read<seq<Listing>>)
    ensures r.Ok? ==> |r.value| == n
  {
    if n == 0 then Ok([], inp)
    else
      match ParseRow(inp)
      case Fail(f) => Fail(f)
      case Ok(row, rest) => After([row], ParseRows(rest, n - 1))
  }

  /** The number of passes of `for (i = 0; i < rows; i++)` with the count
      held in an `int`: none for a count that reads as negative. */
  function RowCount(count: u32): (n: nat)
    ensures n < I32_RANGE
    ensures count < I32_RANGE ==> n == count
    ensures count >= I32_RANGE ==> n == 0
  {
    var rows := ToInt32(count);
    if rows < 0 then 0 else rows
  }

  /** The reply do_list expects: a tag it does not check, the row count,
      then that many ROW frames. */
  function ParseList(inp: Bytes): Read<seq<Listing>>
  {
    match TakeInt(inp)
    case Fail(f) => Fail(f)
    case Ok(_, r0) =>
      match TakeInt(r0)
      case Fail(f) => Fail(f)
      case Ok(count, r1) => ParseRows(r1, RowCount(count))
  }

  /** The size as a `uint32_t`, then exactly that many bytes. */
  function ReceiveBody(inp: Bytes): (r: Read<Bytes>)
    ensures r.Ok? <==> |inp| >= 4 && |inp| - 4 >= TakeInt(inp).value
    ensures r.Ok? ==> |r.value| < U32_RANGE && EncodeU32(|r.value|) + r.value + r.rest == inp
  {
    match TakeInt(inp)
    case Fail(f) => Fail(f)
    case Ok(len, rest) => TakeBytes(rest, len)
  }

  /** How do_download and do_random take a reply. */
  datatype Fetch = Denied | Missing | Received(data: Bytes)

  /** The reply tag is neither DENY nor NOFILE, so receive_file runs. */
  predicate Coming(inp: Bytes)
  {
    TakeInt(inp).Ok? && TakeInt(inp).value != Code(Deny) && TakeInt(inp).value != Code(NoFile)
  }

  /** The reply do_download and do_random expect: DENY or NOFILE alone,
      and any other first value announces a file body. */
  function ParseFetch(inp: Bytes): (r: Read<Fetch>)
    ensures r.Ok? && r.value == Denied <==> TakeInt(inp).Ok? && TakeInt(inp).value == Code(Deny)
    ensures r.Ok? && r.value == Missing <==> TakeInt(inp).Ok? && TakeInt(inp).value == Code(NoFile)
    ensures r.Ok? && r.value.Received? <==> Coming(inp) && ReceiveBody(TakeInt(inp).rest).Ok?
  {
    match TakeInt(inp)
    case Fail(f) => Fail(f)
    case Ok(resp, rest) =>
      // `int resp` compared with 5 and 9: the same as comparing the uint32_t
      if resp == Code(Deny) then Ok(Denied, rest)
      else if resp == Code(NoFile) then Ok(Missing, rest)
      else
        match ReceiveBody(rest)
        case Fail(f) => Fail(f)
        case Ok(data, after) => Ok(Received(data), after)
  }

  // ---------------------------------------------------------------------
  // One command

  /** Why the client process ends early. */
  datatype Why =
    | Crash              // a segmentation fault: a NULL token in strcmp, strlen or atoi, or a body for the NULL stream of fopen(NULL)
    | Abort(fault: Fault)

  /** The effect of one command: the new globals, what was sent and what of
      the server's replies is left; or why the process ended, with what it
      had sent by then. */
  datatype Turn =
    | Go(next: View, sent: Bytes, rest: Bytes)
    | Halt(why: Why, sent: Bytes)

  /** do_echo with the line fgets stored. */
  function EchoTurn(v: View, text: Bytes, inp: Bytes): Turn
  {
    var sent := TagFrame(Echo) + EncodeStr(text);
    match ParseEcho(inp)
    case Fail(f) => Halt(Abort(f), sent)
    case Ok(s, rest) => Go(Show(v, Echoed(s)), sent, rest)
  }

  /** do_list: LIST, then one printed line per row received. */
  function ListTurn(v: View, inp: Bytes): Turn
  {
    match ParseList(inp)
    case Fail(f) => Halt(Abort(f), TagFrame(List))
    case Ok(rows, rest) => Go(v.(shown := v.shown + RowNotes(rows)), TagFrame(List), rest)
  }

  /** do_user: USER and the name; nothing is read back. Without a name,
      the tag goes out and strlen(NULL) faults. */
  function UserTurn(v: View, name: Option<Bytes>, inp: Bytes): Turn
  {
    match name
    case None => Halt(Crash, TagFrame(User))
    case Some(n) => Go(v, TagFrame(User) + EncodeStr(n), inp)
  }

  /** do_pass: PASS and the password, then one tag; success is reported
      exactly when that tag is ACCEPT. */
  function PassTurn(v: View, password: Option<Bytes>, inp: Bytes): Turn
  {
    match password
    case None => Halt(Crash, TagFrame(Pass))
    case Some(p) =>
      var sent := TagFrame(Pass) + EncodeStr(p);
      match TakeInt(inp)
      case Fail(f) => Halt(Abort(f), sent)
      case Ok(tag, rest) => Go(Show(v, if tag == Code(Accept) then LoggedIn else LoginFailed), sent, rest)
  }

  /** The reply handling of do_download and do_random, after `sent` went
      out. A file body goes to `path`; with no path, receive_file works on
      the NULL stream of fopen(NULL) and faults once a body is announced. */
  function FetchTurn(v: View, sent: Bytes, path: Option<Bytes>, inp: Bytes): (r: Turn)
    ensures r.sent == sent
    ensures r.Go? <==> ParseFetch(inp).Ok? && (path.Some? || !ParseFetch(inp).value.Received?)
    ensures r.Go? ==> r.rest == ParseFetch(inp).rest
    ensures r.Go? && r.next.files != v.files ==> path.Some? && ParseFetch(inp).value.Received?
  {
    if path.None? && Coming(inp) then Halt(Crash, sent)
    else
      match ParseFetch(inp)
      case Fail(f) => Halt(Abort(f), sent)
      case Ok(Denied, rest) => Go(Show(v, AccessDenied), sent, rest)
      case Ok(Missing, rest) => Go(Show(v, NoSuchFile), sent, rest)
      case Ok(Received(data), rest) => Go(v.(files := v.files[path.value := data]), sent, rest)
  }

  /** do_command on one line: the first token picks the command. */
  function Command(v: View, line: Bytes, inp: Bytes): (r: Turn)
  {
    match NextToken(CString(line))
    case None => Halt(Crash, [])  // strcmp(NULL, "list")
    case Some(first) =>
      var word, more := first.text, first.rest;
      if word == LIST_WORD then ListTurn(v, inp)
      else if word == USER_WORD then UserTurn(v, Arg(more), inp)
      else if word == PASS_WORD then PassTurn(v, Arg(more), inp)
      else if word == DOWNLOAD_WORD then
        match NextToken(more)
        case None => Halt(Crash, [])  // atoi(NULL)
        case Some(id) => FetchTurn(v, TagFrame(File) + EncodeU32(Wrap32(Atoi(id.text))), Arg(id.rest), inp)
      else if word == RANDOM_WORD then FetchTurn(v, TagFrame(Random), Arg(more), inp)
      else if word == EXIT_WORD then Go(v.(running := false), [], inp)
      else Go(Show(v, InvalidCommand(word)), [], inp)
  }

  /** The six command words. */
  predicate IsCommandWord(w: Bytes)
  {
    w == LIST_WORD || w == USER_WORD || w == PASS_WORD ||
    w == DOWNLOAD_WORD || w == RANDOM_WORD || w == EXIT_WORD
  }

  /** Any other first word is reported and nothing is sent or read. */
  lemma UnknownCommandSendsNothing(v: View, line: Bytes, inp: Bytes)
    requires NextToken(CString(line)).Some? && !IsCommandWord(NextToken(CString(line)).value.text)
    ensures Command(v, line, inp) == Go(Show(v, InvalidCommand(NextToken(CString(line)).value.text)), [], inp)
  {
  }

  /** A line whose first word is "exit" only clears `running`, whatever
      follows the word: nothing is sent or read. */
  lemma ExitCommand(v: View, line: Bytes, inp: Bytes)
    requires NextToken(CString(line)).Some? && NextToken(CString(line)).value.text == EXIT_WORD
    ensures Command(v, line, inp) == Go(v.(running := false), [], inp)
  {
  }

  /** The line "exit" as typed, tokenised. */
  lemma ExitLine(v: View, inp: Bytes)
    ensures Command(v, EXIT_WORD + [0x0A], inp) == Go(v.(running := false), [], inp)
  {
    CStringOfNulFree(EXIT_WORD + [0x0A]);
    TokenOfWord(EXIT_WORD, 0x0A, []);
    assert EXIT_WORD + [0x0A] + [] == EXIT_WORD + [0x0A];
    ExitCommand(v, EXIT_WORD + [0x0A], inp);
  }

  // ---------------------------------------------------------------------
  // The whole run

  /** How the client ends: the final globals, everything sent, and, when
      the process ended early, why. */
  datatype Ending = Ending(final: View, sent: Bytes, why: Option<Why>)

  /** The loop of `main` over the lines of standard input while `running`
      is set, then CLOSE. A `Crash` is a segmentation fault: the handler
      installed by `setup` sends CLOSE and closes the socket, and the fault
      then recurs, so that handler's write fails and `error()` ends the
      process. An `Abort` is `error()` itself: nothing more is sent. */
  function Session(v: View, lines: seq<Bytes>, inp: Bytes): (e: Ending)
    decreases |lines|
  {
    if !v.running || lines == [] then Ending(v, TagFrame(Close), None)
    else
      match Command(v, lines[0], inp)
      case Halt(Crash, sent) => Ending(v, sent + TagFrame(Close), Some(Crash))
      case Halt(why, sent) => Ending(v, sent, Some(why))
      case Go(next, sent, rest) =>
        var e := Session(next, lines[1..], rest);
        Ending(e.final, sent + e.sent, e.why)
  }

  /** Every session that `error()` does not cut short ends by sending
      CLOSE: from `main` after the loop, or from the signal handler after
      a crash. */
  lemma {:induction false} SessionEndsWithClose(v: View, lines: seq<Bytes>, inp: Bytes)
    requires Session(v, lines, inp).why.None? || Session(v, lines, inp).why.value.Crash?
    ensures var sent := Session(v, lines, inp).sent;
      |sent| >= 4 && sent[|sent| - 4..] == TagFrame(Close)
    decreases |lines|
  {
    if v.running && lines != [] {
      match Command(v, lines[0], inp)
      case Halt(why, sent) =>
        var all := sent + TagFrame(Close);
        assert all[|all| - 4..] == TagFrame(Close);
      case Go(next, sent, rest) =>
        SessionEndsWithClose(next, lines[1..], rest);
        var tail := Session(next, lines[1..], rest).sent;
        assert (sent + tail)[|sent + tail| - 4..] == tail[|tail| - 4..];
    }
  }

  // ---------------------------------------------------------------------
  // The client process

  class Terminal {
    const ch: Channel
    const buf: array<byte>
    var running: bool
    /** what has been printed */
    var shown: seq<Note>
    /** the local files */
    var files: map<Bytes, Bytes>

    ghost predicate Valid()
    {
      buf.Length == BUF_SIZE
    }

    function State(): View
      reads this
    {
      View(running, shown, files)
    }

    constructor (sock: Channel, local: map<Bytes, Bytes>)
      ensures Valid() && ch == sock && State() == View(true, [], local)
      ensures fresh(buf)
    {
      ch := sock;
      buf := new byte[BUF_SIZE](_ => 0);
      running := true;
      shown := [];
      files := local;
    }

    /** Clear the buffer, read a string into it and take what `%s` shows. */
    method ReadShown() returns (text: Bytes, fault: Option<Fault>)
      requires Valid()
      modifies ch`input, buf
      ensures var r := TakeShown(old(ch.input));
        if r.Ok? then fault == None && text == r.value && ch.input == r.rest
        else fault == Some(r.fault)
    {
      Clear(buf);
      var n;
      n, fault := ch.ReadStr(buf);
      text := CString(buf[..]);
    }

    method DoEcho(text: Bytes) returns (halt: Option<Why>)
      requires Valid() && |text| < BUF_SIZE - 1  // fgets(buf, 1023, stdin)
      modifies this`shown, ch, buf
      ensures var r := EchoTurn(old(State()), text, old(ch.input));
        ch.output == old(ch.output) + r.sent &&
        if r.Go? then halt == None && State() == r.next && ch.input == r.rest
        else halt == Some(r.why)
    {
      forall i | 0 <= i < |text| {
        buf[i] := text[i];
      }
      buf[|text|] := 0;
      CStringTerminated(text, buf[|text| + 1..]);
      assert buf[..] == text + [0] + buf[|text| + 1..];
      ch.WriteInt(Code(Echo));
      ch.WriteStr(buf[..]);
      AppendAssoc(old(ch.output), TagFrame(Echo), EncodeStr(text));
      var tag, fault := ch.ReadInt();  // the type is not checked
      if fault.Some? {
        return Some(Abort(fault.value));
      }
      var s;
      s, fault := ReadShown();
      if fault.Some? {
        return Some(Abort(fault.value));
      }
      shown := shown + [Echoed(s)];
      halt := None;
    }

    /** One ROW frame: the tag is not checked, the three strings are shown. */
    method ReadRow() returns (row: Listing, fault: Option<Fault>)
      requires Valid()
      modifies ch`input, buf
      ensures var r := ParseRow(old(ch.input));
        if r.Ok? then fault == None && row == r.value && ch.input == r.rest
        else fault == Some(r.fault)
    {
      row := Listing([], [], []);
      var tag;
      tag, fault := ch.ReadInt();
      if fault.Some? {
        return;
      }
      var id, name, path;
      id, fault := ReadShown();
      if fault.Some? {
        return;
      }
      name, fault := ReadShown();
      if fault.Some? {
        return;
      }
      path, fault := ReadShown();
      if fault.Some? {
        return;
      }
      row := Listing(id, name, path);
    }

    /** The row loop of do_list, for n passes. */
    method ReadRows(n: nat) returns (fault: Option<Fault>)
      requires Valid()
      modifies this`shown, ch`input, buf
      ensures var r := ParseRows(old(ch.input), n);
        if r.Ok? then fault == None && ch.input == r.rest && shown == old(shown) + RowNotes(r.value)
        else fault == Some(r.fault)
    {
      ghost var start := ch.input;
      ghost var cur := start;
      ghost var done: seq<Listing> := [];
      AfterNothing(ParseRows(start, n));
      var i := 0;
      while i < n
        invariant 0 <= i <= n && |done| == i && ch.input == cur
        invariant ParseRows(start, n) == After(done, ParseRows(cur, n - i))
        invariant shown == old(shown) + RowNotes(done)
      {
        var row;
        row, fault := ReadRow();
        RowsStep(start, n, done, cur, i);
        if fault.Some? {
          return;
        }
        cur := ch.input;
        shown := shown + [Listed(row)];
        AppendAssoc(old(shown), RowNotes(done), [Listed(row)]);
        RowNotesSnoc(done, row);
        done := done + [row];
        i := i + 1;
      }
      AfterNothing(Ok(done, ch.input));
      fault := None;
    }

    method DoList() returns (halt: Option<Why>)
      requires Valid()
      modifies this`shown, ch, buf
      ensures var r := ListTurn(old(State()), old(ch.input));
        ch.output == old(ch.output) + r.sent &&
        if r.Go? then halt == None && State() == r.next && ch.input == r.rest
        else halt == Some(r.why)
    {
      ch.WriteInt(Code(List));
      var tag, fault := ch.ReadInt();  // the type is not checked
      if fault.Some? {
        return Some(Abort(fault.value));
      }
      var count;
      count, fault := ch.ReadInt();
      if fault.Some? {
        return Some(Abort(fault.value));
      }
      // int rows; for (i = 0; i < rows; i++)
      fault := ReadRows(RowCount(count));
      if fault.Some? {
        return Some(Abort(fault.value));
      }
      halt := None;
    }

    /** do_user with the token after "user", or NULL. */
    method DoUser(name: Option<Bytes>) returns (halt: Option<Why>)
      modifies ch`output
      ensures var r := UserTurn(old(State()), name, old(ch.input));
        ch.output == old(ch.output) + r.sent &&
        if r.Go? then halt == None else halt == Some(r.why)
    {
      ch.WriteInt(Code(User));
      if name.None? {
        return Some(Crash);  // strlen(NULL)
      }
      ch.WriteStr(name.value);
      AppendAssoc(old(ch.output), TagFrame(User), EncodeStr(name.value));
      halt := None;
    }

    /** do_pass with the token after "pass", or NULL. */
    method DoPass(password: Option<Bytes>) returns (halt: Option<Why>)
      modifies this`shown, ch
      ensures var r := PassTurn(old(State()), password, old(ch.input));
        ch.output == old(ch.output) + r.sent &&
        if r.Go? then halt == None && State() == r.next && ch.input == r.rest
        else halt == Some(r.why)
    {
      ch.WriteInt(Code(Pass));
      if password.None? {
        return Some(Crash);  // strlen(NULL)
      }
      ch.WriteStr(password.value);
      AppendAssoc(old(ch.output), TagFrame(Pass), EncodeStr(password.value));
      var tag, fault := ch.ReadInt();
      if fault.Some? {
        return Some(Abort(fault.value));
      }
      if tag == Code(Accept) {
        shown := shown + [LoggedIn];
      } else {
        shown := shown + [LoginFailed];
      }
      halt := None;
    }

    /** receive_file: the size, then blocks of at most CHUNK bytes staged
        through `buf` and appended to the file, until `len` bytes are in. */
    method ReceiveFile(path: Bytes) returns (fault: Option<Fault>)
      requires Valid()
      modifies this`files, ch`input, buf
      ensures var r := ReceiveBody(old(ch.input));
        if r.Ok? then fault == None && ch.input == r.rest && files == old(files)[path := r.value]
        else fault == Some(r.fault)
    {
      files := files[path := []];  // fopen(path, "wb")
      var len;
      len, fault := ch.ReadInt();
      if fault.Some? {
        return;
      }
      ghost var body := TakeBytes(ch.input, len);
      fault := ReceiveChunks(path, len);
      if body.Ok? {
        assert [] + body.value == body.value;
      }
    }

    /** The loop of receive_file: `len` bytes in blocks of at most CHUNK,
        each staged through `buf` and appended to the open file. */
    method ReceiveChunks(path: Bytes, len: nat) returns (fault: Option<Fault>)
      requires Valid() && path in files
      modifies this`files, ch`input, buf
      ensures var r := TakeBytes(old(ch.input), len);
        if r.Ok? then fault == None && ch.input == r.rest && files == old(files)[path := old(files)[path] + r.value]
        else fault == Some(r.fault)
    {
      ghost var start := ch.input;
      ghost var base := files[path];
      var counter := 0;
      assert base + start[..counter] == base;
      assert files == old(files)[path := base];
      while counter < len
        invariant 0 <= counter <= len && counter <= |start|
        invariant ch.input == start[counter..]
        invariant files == old(files)[path := base + start[..counter]]
        decreases len - counter
      {
        var toRead := if len - counter < CHUNK then len - counter else CHUNK;
        assert 1 <= toRead <= CHUNK;
        var data;
        data, fault := ch.Read(toRead);
        if fault.Some? {
          return;
        }
        forall i | 0 <= i < toRead {
          buf[i] := data[i];
        }
        assert buf[..toRead] == start[counter..counter + toRead];
        files := files[path := files[path] + buf[..toRead]];  // fwrite
        assert start[..counter] + start[counter..counter + toRead] == start[..counter + toRead];
        AppendAssoc(base, start[..counter], start[counter..counter + toRead]);
        assert start[counter..][toRead..] == start[counter + toRead..];
        counter := counter + toRead;
      }
      fault := None;
    }

    /** The reply handling shared by do_download and do_random. */
    method AwaitFile(path: Option<Bytes>) returns (halt: Option<Why>)
      requires Valid()
      modifies this`shown, this`files, ch`input, buf
      ensures var r := FetchTurn(old(State()), [], path, old(ch.input));
        if r.Go? then halt == None && State() == r.next && ch.input == r.rest
        else halt == Some(r.why)
    {
      var resp, fault := ch.ReadInt();
      if fault.Some? {
        return Some(Abort(fault.value));
      }
      if resp == Code(Deny) {
        shown := shown + [AccessDenied];
      } else if resp == Code(NoFile) {
        shown := shown + [NoSuchFile];
      } else if path.None? {
        return Some(Crash);  // fopen(NULL, "wb")
      } else {
        fault := ReceiveFile(path.value);
        if fault.Some? {
          return Some(Abort(fault.value));
        }
      }
      halt := None;
    }

    /** do_download with the id already converted by atoi. */
    method DoDownload(mid: int, path: Option<Bytes>) returns (halt: Option<Why>)
      requires Valid()
      modifies this`shown, this`files, ch, buf
      ensures var r := FetchTurn(old(State()), TagFrame(File) + EncodeU32(Wrap32(mid)), path, old(ch.input));
        ch.output == old(ch.output) + r.sent &&
        if r.Go? then halt == None && State() == r.next && ch.input == r.rest
        else halt == Some(r.why)
    {
      ch.WriteInt(Code(File));
      ch.WriteInt(Wrap32(mid));
      AppendAssoc(old(ch.output), TagFrame(File), EncodeU32(Wrap32(mid)));
      halt := AwaitFile(path);
    }

    method DoRandom(path: Option<Bytes>) returns (halt: Option<Why>)
      requires Valid()
      modifies this`shown, this`files, ch, buf
      ensures var r := FetchTurn(old(State()), TagFrame(Random), path, old(ch.input));
        ch.output == old(ch.output) + r.sent &&
        if r.Go? then halt == None && State() == r.next && ch.input == r.rest
        else halt == Some(r.why)
    {
      ch.WriteInt(Code(Random));
      halt := AwaitFile(path);
    }

    method DoCommand(line: Bytes) returns (halt: Option<Why>)
      requires Valid()
      modifies this, ch, buf
      ensures var r := Command(old(State()), line, old(ch.input));
        ch.output == old(ch.output) + r.sent &&
        if r.Go? then halt == None && State() == r.next && ch.input == r.rest
        else halt == Some(r.why)
    {
      var tok := NextToken(CString(line));  // strtok(command, " \n")
      if tok.None? {
        return Some(Crash);  // strcmp(NULL, "list")
      }
      var word, more := tok.value.text, tok.value.rest;
      if word == LIST_WORD {
        halt := DoList();
      } else if word == USER_WORD {
        halt := DoUser(Arg(more));
      } else if word == PASS_WORD {
        halt := DoPass(Arg(more));
      } else if word == DOWNLOAD_WORD {
        var id := NextToken(more);
        if id.None? {
          return Some(Crash);  // atoi(NULL)
        }
        var mid := Atoi(id.value.text);
        halt := DoDownload(mid, Arg(id.value.rest));
      } else if word == RANDOM_WORD {
        halt := DoRandom(Arg(more));
      } else if word == EXIT_WORD {
        running := false;
        halt := None;
      } else {
        shown := shown + [InvalidCommand(word)];
        halt := None;
      }
    }

    /** The loop of `main`, then CLOSE. */
    method RunSession(lines: seq<Bytes>) returns (halt: Option<Why>)
      requires Valid()
      modifies this, ch, buf
      ensures var e := Session(old(State()), lines, old(ch.input));
        halt == e.why && ch.output == old(ch.output) + e.sent &&
        (halt.None? ==> State() == e.final)
    {
      ghost var sent: Bytes := [];
      var k := 0;
      while running && k < |lines|
        invariant 0 <= k <= |lines|
        invariant ch.output == old(ch.output) + sent
        invariant var e := Session(State(), lines[k..], ch.input);
          Session(old(State()), lines, old(ch.input)) == Ending(e.final, sent + e.sent, e.why)
        decreases |lines| - k
      {
        ghost var v, inp := State(), ch.input;
        ghost var r := Command(v, lines[k], inp);
        assert lines[k..][1..] == lines[k + 1..];
        halt := DoCommand(lines[k]);
        AppendAssoc(old(ch.output), sent, r.sent);
        if halt.Some? {
          if halt.value.Crash? {
            // signal_handler on SIGSEGV
            ch.WriteInt(Code(Close));
            AppendAssoc(old(ch.output) + sent, r.sent, TagFrame(Close));
            AppendAssoc(old(ch.output), sent, r.sent + TagFrame(Close));
          }
          return;
        }
        AppendAssoc(sent, r.sent, Session(State(), lines[k + 1..], ch.input).sent);
        sent := sent + r.sent;
        k := k + 1;
      }
      AppendAssoc(old(ch.output), sent, TagFrame(Close));
      ch.WriteInt(Code(Close));
      halt := None;
    }
  }

  /** The rows read so far, in front of what a parse of the rest yields. */
  function After(done: seq<Listing>, r: Read<seq<Listing>>): Read<seq<Listing>>
  {
    match r
    case Fail(f) => Fail(f)
    case Ok(rows, rest) => Ok(done + rows, rest)
  }

  lemma AfterNothing(r: Read<seq<Listing>>)
    ensures After([], r) == r
    ensures r.Ok? ==> After(r.value, Ok([], r.rest)) == r
  {
    if r.Ok? {
      assert [] + r.value == r.value;
      assert r.value + [] == r.value;
    }
  }

  lemma AfterAfter(done: seq<Listing>, row: Listing, r: Read<seq<Listing>>)
    ensures After(done, After([row], r)) == After(done + [row], r)
  {
    if r.Ok? {
      AppendAssoc(done, [row], r.value);
    }
  }

  /** One more row read: its frame, then the remaining ones. */
  lemma ParseRowsStep(inp: Bytes, m: nat)
    requires m > 0 && ParseRow(inp).Ok?
    ensures ParseRows(inp, m) == After([ParseRow(inp).value], ParseRows(ParseRow(inp).rest, m - 1))
  {
  }

  /** The row loop's invariant carried over one more ROW frame, or the
      fault of that frame reported for the whole list. */
  lemma RowsStep(start: Bytes, n: nat, done: seq<Listing>, inp: Bytes, i: nat)
    requires i < n && ParseRows(start, n) == After(done, ParseRows(inp, n - i))
    ensures var p := ParseRow(inp);
      if p.Ok? then ParseRows(start, n) == After(done + [p.value], ParseRows(p.rest, n - i - 1))
      else ParseRows(start, n) == Fail(p.fault)
  {
    var p := ParseRow(inp);
    if p.Ok? {
      ParseRowsStep(inp, n - i);
      AfterAfter(done, p.value, ParseRows(p.rest, n - i - 1));
    }
  }

  lemma RowNotesSnoc(done: seq<Listing>, row: Listing)
    ensures RowNotes(done + [row]) == RowNotes(done) + [Listed(row)]
  {
    assert (done + [row])[..|done|] == done;
  }
}
