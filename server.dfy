/** The server's side of one SMDP connection (server.c): the session globals
    `authenticated`, `username` and `password`, the request handlers and the
    dispatch loop of `handle`.

    The SQLite database and the file system are a `Catalog` value: the
    `users` table as a map, the `files` table as its rows in the order SQLite
    returns them, and the disk as a map from path to contents. The row that
    `ORDER BY RANDOM()` yields is chosen by an argument `pick`.

    The pure functions below state, request by request, what the server
    sends back and how the session changes; class `Connection` is the
    imperative code, proved against them. */
module Server {
  import opened Smdp

  /** char buf[1024] */
  const BUF_SIZE: nat := 1024
  /** char username[256], password[256] */
  const NAME_SIZE: nat := 256
  /** the block size of send_file */
  const CHUNK: nat := 1024

  /** A row of the `files` table: mid, name, path. */
  datatype Record = Record(id: int, name: Bytes, path: Bytes)

  datatype Catalog = Catalog(
    /** the `users` table: username to password */
    users: map<Bytes, Bytes>,
    /** the `files` table, in the order SQLite returns its rows */
    files: seq<Record>,
    /** the files on disk, by path */
    disk: map<Bytes, Bytes>)

  /** The session globals, with the two name buffers read as C strings. */
  datatype Session = Session(authenticated: bool, username: Bytes, password: Bytes)

  /** A new connection: `authenticated = 0` and zeroed name buffers. */
  const Fresh := Session(false, [], [])

  /** Why the dispatch loop of `handle` ended. */
  datatype Exit =
    | Closed            // SMDP_CLOSE received
    | BadTag(code: u32) // a value with no case in the switch
    | Aborted(fault: Fault)

  /** The effect of one request. */
  datatype Step =
    | Continue(next: Session, reply: Bytes, rest: Bytes)
    | Stop(why: Exit)

  // ---------------------------------------------------------------------
  // Text of an integer column (what sqlite3_exec hands list_callback)

  /** Decimal digits of a natural number, most significant first. */
  function Decimal(n: nat): (s: Bytes)
    ensures s != [] && forall i :: 0 <= i < |s| ==> IsDigit(s[i])
  {
    if n < 10 then [DigitChar(n)] else Decimal(n / 10) + [DigitChar(n % 10)]
  }

  /** An integer as SQLite renders it as text: a '-' sign, then the digits. */
  function IntText(x: int): (s: Bytes)
    ensures NulFree(s)
  {
    if x < 0 then [0x2D] + Decimal(-x) else Decimal(x)
  }

  // ---------------------------------------------------------------------
  // Catalog queries

  /** `SELECT ... FROM files WHERE mid = ?`: the row with that id, if any. */
  function Lookup(files: seq<Record>, id: int): (r: Option<Record>)
    ensures r.Some? ==> r.value in files && r.value.id == id
    ensures r.None? <==> forall i :: 0 <= i < |files| ==> files[i].id != id
  {
    if files == [] then None
    else if files[0].id == id then Some(files[0])
    else Lookup(files[1..], id)
  }

  /** The check of do_pass: a user called `username` exists and its stored
      password, read as a C string, equals the one sent. */
  predicate Matches(users: map<Bytes, Bytes>, username: Bytes, password: Bytes)
  {
    username in users && CString(users[username]) == password
  }

  // ---------------------------------------------------------------------
  // Replies

  /** What list_callback writes for one row: ROW and three strings. */
  function RowFrame(r: Record): Bytes
  {
    TagFrame(Row) + EncodeStr(IntText(r.id)) + EncodeStr(r.name) + EncodeStr(r.path)
  }

  /** The ROW frames of the given rows, in order. */
  function RowFrames(rows: seq<Record>): Bytes
  {
    if rows == [] then [] else RowFrames(rows[..|rows| - 1]) + RowFrame(rows[|rows| - 1])
  }

  /** The reply of do_list: LIST, the row count, then one ROW frame per row. */
  function ListReply(files: seq<Record>): Bytes
  {
    TagFrame(List) + EncodeU32(Wrap32(|files|)) + RowFrames(files)
  }

  /** What send_file writes for a path: NOFILE alone if it is not on disk,
      otherwise FILE, the size as a `uint32_t` and that many bytes. */
  function FileReply(disk: map<Bytes, Bytes>, path: Bytes): (b: Bytes)
    ensures path !in disk ==> b == TagFrame(NoFile)
    ensures path in disk && |disk[path]| < U32_RANGE ==>
      b == TagFrame(File) + EncodeU32(|disk[path]|) + disk[path]
  {
    if path !in disk then TagFrame(NoFile)
    else
      var data := disk[path];
      var len := Wrap32(|data|);
      assert |data| < U32_RANGE ==> data[..len] == data;
      TagFrame(File) + EncodeU32(len) + data[..len]
  }

  /** The reply of do_random for the row that `pick` selects. */
  function RandomReply(s: Session, c: Catalog, pick: nat): (b: Bytes)
    ensures !s.authenticated ==> b == TagFrame(Deny)
    ensures s.authenticated && c.files == [] ==> b == TagFrame(NoFile)
    ensures s.authenticated && c.files != [] ==>
      exists r :: r in c.files && b == EncodeU32(Wrap32(r.id)) + FileReply(c.disk, CString(r.path))
  {
    if !s.authenticated then TagFrame(Deny)
    else if c.files == [] then TagFrame(NoFile)
    else
      var r := c.files[pick % |c.files|];
      EncodeU32(Wrap32(r.id)) + FileReply(c.disk, CString(r.path))
  }

  // ---------------------------------------------------------------------
  // One request, after its tag has been read

  /** do_echo: read a string into `buf`, send ECHO and the C string back. */
  function EchoStep(s: Session, inp: Bytes): Step
  {
    match TakeStr(inp, BUF_SIZE)
    case Fail(f) => Stop(Aborted(f))
    case Ok(str, rest) => Continue(s, TagFrame(Echo) + EncodeStr(str), rest)
  }

  /** do_user: store the name; no check, no reply, and `authenticated`
      keeps its value. */
  function UserStep(s: Session, inp: Bytes): Step
  {
    match TakeStr(inp, NAME_SIZE)
    case Fail(f) => Stop(Aborted(f))
    case Ok(name, rest) => Continue(s.(username := CString(name)), [], rest)
  }

  /** do_pass: `authenticated` becomes exactly whether the stored user's
      password matches, so a failed attempt revokes an earlier success;
      the reply is ACCEPT or DENY accordingly. */
  function PassStep(s: Session, c: Catalog, inp: Bytes): Step
  {
    match TakeStr(inp, NAME_SIZE)
    case Fail(f) => Stop(Aborted(f))
    case Ok(pass, rest) =>
      var password := CString(pass);
      var ok := Matches(c.users, s.username, password);
      Continue(Session(ok, s.username, password), TagFrame(if ok then Accept else Deny), rest)
  }

  /** do_file: the id is always read; then DENY when not authenticated,
      NOFILE for an unknown id, otherwise what send_file writes. */
  function FileStep(s: Session, c: Catalog, inp: Bytes): Step
  {
    match TakeInt(inp)
    case Fail(f) => Stop(Aborted(f))
    case Ok(mid, rest) =>
      var reply :=
        if !s.authenticated then TagFrame(Deny)
        else match Lookup(c.files, ToInt32(mid))
          case None => TagFrame(NoFile)
          case Some(row) => FileReply(c.disk, CString(row.path));
      Continue(s, reply, rest)
  }

  /** The switch of `handle` on a tag value other than CLOSE. */
  function Dispatch(s: Session, c: Catalog, code: u32, rest: Bytes, pick: nat): (r: Step)
    ensures r.Continue? ==> |r.rest| <= |rest|
  {
    match TagOf(code)
    case Some(Echo) => EchoStep(s, rest)
    case Some(List) => Continue(s, ListReply(c.files), rest)
    case Some(User) => UserStep(s, rest)
    case Some(Pass) => PassStep(s, c, rest)
    case Some(File) => FileStep(s, c, rest)
    case Some(Random) => Continue(s, RandomReply(s, c, pick), rest)
    case _ => Stop(BadTag(code))
  }

  /** One pass of the loop in `handle`: read a tag and dispatch on it.
      CLOSE and every value without a case (UPLOAD among them) end it. */
  function Request(s: Session, c: Catalog, inp: Bytes, pick: nat): (r: Step)
    ensures r.Continue? ==> |inp| >= 4 && |r.rest| <= |inp| - 4
  {
    match TakeInt(inp)
    case Fail(f) => Stop(Aborted(f))
    case Ok(code, rest) =>
      if code == Code(Close) then Stop(Closed) else Dispatch(s, c, code, rest, pick)
  }

  /** The whole session: the final globals, everything sent, and why the
      loop ended. Request number k uses the random choice picks(k). */
  datatype Outcome = Outcome(final: Session, sent: Bytes, why: Exit)

  function Run(s: Session, c: Catalog, inp: Bytes, picks: nat -> nat, k: nat): (o: Outcome)
    decreases |inp|
  {
    match Request(s, c, inp, picks(k))
    case Stop(why) => Outcome(s, [], why)
    case Continue(next, reply, rest) =>
      var o := Run(next, c, rest, picks, k + 1);
      Outcome(o.final, reply + o.sent, o.why)
  }

  // ---------------------------------------------------------------------
  // Properties of the session

  /** CLOSE ends the session at once and nothing is sent. */
  lemma CloseEndsSession(s: Session, c: Catalog, rest: Bytes, pick: nat)
    ensures Request(s, c, TagFrame(Close) + rest, pick) == Stop(Closed)
  {
    IntRoundTrip(Code(Close), rest);
  }

  /** Exactly ECHO, LIST, USER, PASS, FILE and RANDOM are served; every
      other value, UPLOAD and the reply tags included, ends the session. */
  lemma UnservedTagsEndSession(s: Session, c: Catalog, code: u32, rest: Bytes, pick: nat)
    requires code != Code(Close)
    ensures Request(s, c, EncodeU32(code) + rest, pick).Stop? &&
            Request(s, c, EncodeU32(code) + rest, pick).why.BadTag?
        <==> code !in {Code(Echo), Code(List), Code(User), Code(Pass), Code(File), Code(Random)}
  {
    IntRoundTrip(code, rest);
    if code < 12 {
      CodeOfTagOf(code);
    }
  }

  /** UPLOAD has no case in the switch of `handle`. */
  lemma UploadEndsSession(s: Session, c: Catalog, rest: Bytes, pick: nat)
    ensures Request(s, c, TagFrame(Upload) + rest, pick) == Stop(BadTag(Code(Upload)))
  {
    IntRoundTrip(Code(Upload), rest);
  }

  /** Only PASS changes `authenticated`. */
  lemma OnlyPassAuthenticates(s: Session, c: Catalog, inp: Bytes, pick: nat)
    requires |inp| >= 4 && TakeInt(inp).value != Code(Pass)
    requires Request(s, c, inp, pick).Continue?
    ensures Request(s, c, inp, pick).next.authenticated == s.authenticated
  {
    var code, rest := TakeInt(inp).value, TakeInt(inp).rest;
    var t := TagOf(code);
    if t.Some? {
      CodeOfTagOf(code);
      assert t.value != Pass;
    }
    assert Request(s, c, inp, pick) == Dispatch(s, c, code, rest, pick);
  }

  /** Before a matching PASS, FILE gets DENY alone: its id is still
      consumed and the session does not change. */
  lemma FileDeniedWhenUnauthenticated(s: Session, c: Catalog, id: u32, rest: Bytes, pick: nat)
    requires !s.authenticated
    ensures Request(s, c, TagFrame(File) + EncodeU32(id) + rest, pick) == Continue(s, TagFrame(Deny), rest)
  {
    AppendAssoc(TagFrame(File), EncodeU32(id), rest);
    IntRoundTrip(Code(File), EncodeU32(id) + rest);
    IntRoundTrip(id, rest);
  }

  /** Before a matching PASS, RANDOM gets DENY alone. */
  lemma RandomDeniedWhenUnauthenticated(s: Session, c: Catalog, rest: Bytes, pick: nat)
    requires !s.authenticated
    ensures Request(s, c, TagFrame(Random) + rest, pick) == Continue(s, TagFrame(Deny), rest)
  {
    IntRoundTrip(Code(Random), rest);
  }

  /** With an empty `users` table no PASS can match, so a session that
      starts unauthenticated stays so to its end (and every FILE and RANDOM
      in it is denied). */
  predicate NoUsers(c: Catalog)
  {
    c.users == map[]
  }

  lemma {:induction false} NeverAuthenticatedWithoutUsers(s: Session, c: Catalog, inp: Bytes, picks: nat -> nat, k: nat)
    requires NoUsers(c) && !s.authenticated
    ensures !Run(s, c, inp, picks, k).final.authenticated
    decreases |inp|
  {
    match Request(s, c, inp, picks(k))
    case Stop(_) =>
    case Continue(next, reply, rest) =>
      assert !next.authenticated;
      NeverAuthenticatedWithoutUsers(next, c, rest, picks, k + 1);
  }

  /** RANDOM on an empty catalog: NOFILE, whatever the choice. */
  lemma RandomOnEmptyCatalog(s: Session, c: Catalog, rest: Bytes, pick: nat)
    requires s.authenticated && c.files == []
    ensures Request(s, c, TagFrame(Random) + rest, pick) == Continue(s, TagFrame(NoFile), rest)
  {
    IntRoundTrip(Code(Random), rest);
  }

  /** The ROW frames of a list are the first row's frame, then the rest's. */
  lemma {:induction false} RowFramesCons(r: Record, rows: seq<Record>)
    ensures RowFrames([r] + rows) == RowFrame(r) + RowFrames(rows)
    decreases |rows|
  {
    if rows == [] {
      assert [r] + rows == [r];
      assert [r][..0] == [];
    } else {
      var front, last := rows[..|rows| - 1], rows[|rows| - 1];
      var all := [r] + rows;
      assert all[..|all| - 1] == [r] + front;
      assert all[|all| - 1] == last;
      calc {
        RowFrames(all);
        RowFrames([r] + front) + RowFrame(last);
        { RowFramesCons(r, front); }
        (RowFrame(r) + RowFrames(front)) + RowFrame(last);
        { AppendAssoc(RowFrame(r), RowFrames(front), RowFrame(last)); }
        RowFrame(r) + (RowFrames(front) + RowFrame(last));
        RowFrame(r) + RowFrames(rows);
      }
    }
  }

  /** Appending a row appends its frame. */
  lemma RowFramesSnoc(rows: seq<Record>, i: nat)
    requires i < |rows|
    ensures RowFrames(rows[..i + 1]) == RowFrames(rows[..i]) + RowFrame(rows[i])
  {
    assert rows[..i + 1][..i] == rows[..i];
  }

  // ---------------------------------------------------------------------
  // The connection handled by the forked child

  class Connection {
    const ch: Channel
    const db: Catalog
    const buf: array<byte>
    const username: array<byte>
    const password: array<byte>
    var authenticated: bool

    ghost predicate Valid()
    {
      buf.Length == BUF_SIZE && username.Length == NAME_SIZE && password.Length == NAME_SIZE &&
      buf != username && buf != password && username != password
    }

    /** The session globals as the protocol sees them. */
    ghost function State(): Session
      reads this, username, password
    {
      Session(authenticated, CString(username[..]), CString(password[..]))
    }

    constructor (sock: Channel, catalog: Catalog)
      ensures Valid() && ch == sock && db == catalog && State() == Fresh
      ensures fresh(buf) && fresh(username) && fresh(password)
    {
      ch := sock;
      db := catalog;
      buf := new byte[BUF_SIZE](_ => 0);
      username := new byte[NAME_SIZE](_ => 0);
      password := new byte[NAME_SIZE](_ => 0);
      authenticated := false;
    }

    method DoEcho() returns (fault: Option<Fault>)
      requires Valid()
      modifies ch, buf
      ensures var r := EchoStep(old(State()), old(ch.input));
        if r.Continue? then fault == None && ch.input == r.rest && ch.output == old(ch.output) + r.reply
        else fault == Some(r.why.fault) && ch.output == old(ch.output)
    {
      Clear(buf);
      var n;
      n, fault := ch.ReadStr(buf);
      if fault.Some? {
        return;
      }
      ch.WriteInt(Code(Echo));
      ch.WriteStr(buf[..]);
      assert EncodeStr(buf[..]) == EncodeStr(buf[..n]);
      AppendAssoc(old(ch.output), TagFrame(Echo), EncodeStr(buf[..n]));
    }

    /** list_callback for one row. */
    method ListCallback(r: Record)
      modifies ch`output
      ensures ch.output == old(ch.output) + RowFrame(r)
    {
      ch.WriteInt(Code(Row));
      ch.WriteStr(IntText(r.id));
      ch.WriteStr(r.name);
      ch.WriteStr(r.path);
    }

    /** sqlite3_exec of `SELECT * FROM files` with list_callback: the
        callback runs once per row, in table order. */
    method ExecList()
      modifies ch`output
      ensures ch.output == old(ch.output) + RowFrames(db.files)
    {
      var i := 0;
      while i < |db.files|
        invariant 0 <= i <= |db.files|
        invariant ch.output == old(ch.output) + RowFrames(db.files[..i])
      {
        ListCallback(db.files[i]);
        RowFramesSnoc(db.files, i);
        AppendAssoc(old(ch.output), RowFrames(db.files[..i]), RowFrame(db.files[i]));
        i := i + 1;
      }
      assert db.files[..i] == db.files;
    }

    method DoList()
      modifies ch`output
      ensures ch.output == old(ch.output) + ListReply(db.files)
    {
      var len := |db.files|;  // SELECT COUNT(*) FROM files
      ch.WriteInt(Code(List));
      ch.WriteInt(Wrap32(len));
      ExecList();
    }

    method DoUser() returns (fault: Option<Fault>)
      requires Valid()
      modifies ch`input, username
      ensures var r := UserStep(old(State()), old(ch.input));
        if r.Continue? then fault == None && ch.input == r.rest && State() == r.next
        else fault == Some(r.why.fault) && ch.output == old(ch.output)
    {
      Clear(username);
      var n;
      n, fault := ch.ReadStr(username);
      if fault.Some? {
        return;
      }
    }

    method DoPass() returns (fault: Option<Fault>)
      requires Valid()
      modifies this`authenticated, ch, password
      ensures var r := PassStep(old(State()), db, old(ch.input));
        if r.Continue? then
          fault == None && ch.input == r.rest && ch.output == old(ch.output) + r.reply && State() == r.next
        else fault == Some(r.why.fault) && ch.output == old(ch.output)
    {
      Clear(password);
      var n;
      n, fault := ch.ReadStr(password);
      if fault.Some? {
        return;
      }
      assert username[..] == old(username[..]);
      var user := CString(username[..]);  // bound with strlen(username)
      var pass := CString(password[..]);
      if user in db.users {
        // a row came back: compare with strcmp
        authenticated := pass == CString(db.users[user]);
      } else {
        authenticated := false;
      }
      if authenticated {
        ch.WriteInt(Code(Accept));
      } else {
        ch.WriteInt(Code(Deny));
      }
      assert State() == Session(authenticated, user, pass);
      assert PassStep(old(State()), db, old(ch.input)) ==
        Continue(State(), TagFrame(if authenticated then Accept else Deny), ch.input);
    }

    /** send_file: the size, then the bytes in blocks of at most CHUNK,
        each staged through `buf`, until exactly `len` bytes are out. */
    method SendFile(path: Bytes)
      requires Valid()
      modifies ch`output, buf
      ensures ch.output == old(ch.output) + FileReply(db.disk, path)
    {
      if path !in db.disk {
        // stat fails
        ch.WriteInt(Code(NoFile));
        return;
      }
      var data := db.disk[path];
      var len := Wrap32(|data|);  // st.st_size as uint32_t
      ch.WriteInt(Code(File));
      ch.WriteInt(len);
      ghost var head := ch.output;
      var counter := 0;
      while counter < len
        invariant 0 <= counter <= len <= |data|
        invariant ch.output == head + data[..counter]
        decreases len - counter
      {
        var toRead := if len - counter < CHUNK then len - counter else CHUNK;
        assert 1 <= toRead <= CHUNK;
        Clear(buf);
        forall i | 0 <= i < toRead {
          buf[i] := data[counter + i];  // fread
        }
        assert buf[..toRead] == data[counter..counter + toRead];
        ch.Write(buf[..toRead]);
        AppendAssoc(head, data[..counter], data[counter..counter + toRead]);
        assert data[..counter] + data[counter..counter + toRead] == data[..counter + toRead];
        counter := counter + toRead;
      }
      AppendAssoc(old(ch.output), TagFrame(File), EncodeU32(len));
    }

    method DoFile() returns (fault: Option<Fault>)
      requires Valid()
      modifies ch, buf
      ensures var r := FileStep(old(State()), db, old(ch.input));
        if r.Continue? then fault == None && ch.input == r.rest && ch.output == old(ch.output) + r.reply
        else fault == Some(r.why.fault) && ch.output == old(ch.output)
    {
      var mid;
      mid, fault := ch.ReadInt();
      if fault.Some? {
        return;
      }
      if !authenticated {
        ch.WriteInt(Code(Deny));
        return;
      }
      var row := Lookup(db.files, ToInt32(mid));  // SELECT path FROM files WHERE mid=?
      if row.Some? {
        SendFile(CString(row.value.path));
      } else {
        ch.WriteInt(Code(NoFile));
      }
    }

    method DoRandom(pick: nat)
      requires Valid()
      modifies ch`output, buf
      ensures ch.output == old(ch.output) + RandomReply(old(State()), db, pick)
    {
      if !authenticated {
        ch.WriteInt(Code(Deny));
        return;
      }
      if db.files == [] {
        ch.WriteInt(Code(NoFile));
        return;
      }
      var row := db.files[pick % |db.files|];  // ORDER BY RANDOM() LIMIT 1
      ch.WriteInt(Wrap32(row.id));
      SendFile(CString(row.path));
      AppendAssoc(old(ch.output), EncodeU32(Wrap32(row.id)), FileReply(db.disk, CString(row.path)));
    }

    /** The switch of `handle` on a tag value other than CLOSE. */
    method Serve(msgtype: u32, pick: nat) returns (stop: Option<Exit>)
      requires Valid()
      modifies this, ch, buf, username, password
      ensures var r := Dispatch(old(State()), db, msgtype, old(ch.input), pick);
        if r.Continue? then
          stop == None && ch.input == r.rest && ch.output == old(ch.output) + r.reply && State() == r.next
        else
          stop == Some(r.why) && ch.output == old(ch.output) && (!r.why.Aborted? ==> State() == old(State()))
    {
      ghost var s, inp := State(), ch.input;
      var tag := TagOf(msgtype);
      var fault: Option<Fault> := None;
      if tag == Some(Echo) {
        assert Dispatch(s, db, msgtype, inp, pick) == EchoStep(s, inp);
        fault := DoEcho();
      } else if tag == Some(List) {
        assert Dispatch(s, db, msgtype, inp, pick) == Continue(s, ListReply(db.files), inp);
        DoList();
      } else if tag == Some(User) {
        assert Dispatch(s, db, msgtype, inp, pick) == UserStep(s, inp);
        fault := DoUser();
      } else if tag == Some(Pass) {
        assert Dispatch(s, db, msgtype, inp, pick) == PassStep(s, db, inp);
        fault := DoPass();
      } else if tag == Some(File) {
        assert Dispatch(s, db, msgtype, inp, pick) == FileStep(s, db, inp);
        fault := DoFile();
      } else if tag == Some(Random) {
        assert Dispatch(s, db, msgtype, inp, pick) == Continue(s, RandomReply(s, db, pick), inp);
        DoRandom(pick);
      } else {
        return Some(BadTag(msgtype));
      }
      if fault.Some? {
        return Some(Aborted(fault.value));
      }
      return None;
    }

    /** The dispatch loop of `handle`. */
    method Handle(picks: nat -> nat) returns (why: Exit)
      requires Valid()
      modifies this, ch, buf, username, password
      ensures var o := Run(old(State()), db, old(ch.input), picks, 0);
        why == o.why && ch.output == old(ch.output) + o.sent &&
        (!why.Aborted? ==> State() == o.final)
    {
      ghost var sent: Bytes := [];
      var k := 0;
      while true
        invariant ch.output == old(ch.output) + sent
        invariant var o := Run(State(), db, ch.input, picks, k);
          Run(old(State()), db, old(ch.input), picks, 0) == Outcome(o.final, sent + o.sent, o.why)
        decreases |ch.input|
      {
        ghost var s := State();
        ghost var inp := ch.input;
        var msgtype, fault := ch.ReadInt();
        if fault.Some? {
          return Aborted(fault.value);
        }
        if msgtype == Code(Close) {
          return Closed;
        }
        ghost var step := Request(s, db, inp, picks(k));
        assert step == Dispatch(s, db, msgtype, ch.input, picks(k));
        var stop := Serve(msgtype, picks(k));
        if stop.Some? {
          return stop.value;
        }
        AppendAssoc(sent, step.reply, Run(State(), db, ch.input, picks, k + 1).sent);
        AppendAssoc(old(ch.output), sent, step.reply);
        sent := sent + step.reply;
        k := k + 1;
      }
    }
  }
}
