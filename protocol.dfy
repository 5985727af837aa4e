/** The client and the server of SMDP put together: for each request the
    client sends, what the server's `handle` loop answers and what the
    client makes of that answer.

    ECHO, LIST, USER, PASS and FILE agree end to end. RANDOM does not: on
    success the server first sends the chosen row's id as a bare
    `uint32_t` (server.c:351) and only then what `send_file` writes, while
    the client takes the first value of the reply as its tag and the FILE
    tag that follows as the size (client.c:130-136, client.c:91). The
    as-written behaviour stays in `Server.RandomReply`; `FixedRandomReply`
    is the reply without the id, and the client reads it as intended. */
module Protocol {
  import opened Smdp
  import Server
  import Client

  // ---------------------------------------------------------------------
  // C strings sent twice

  /** What `%s` shows of a C string is the string itself. */
  lemma CStringTwice(s: Bytes)
    ensures CString(CString(s)) == CString(s)
  {
    CStringOfNulFree(CString(s));
  }

  /** smdp_write_str sends the same bytes for a buffer and for the C
      string it holds. */
  lemma EncodeStrOfCString(s: Bytes)
    ensures EncodeStr(CString(s)) == EncodeStr(s)
  {
    CStringTwice(s);
  }

  /** A string frame followed by anything is read back, through a zeroed
      1024-byte buffer, as the C string that was sent. */
  lemma ShownRoundTrip(s: Bytes, rest: Bytes)
    requires |CString(s)| < Client.BUF_SIZE
    ensures Client.TakeShown(EncodeStr(s) + rest) == Ok(CString(s), rest)
  {
    EncodeStrOfCString(s);
    StrRoundTrip(CString(s), rest, Client.BUF_SIZE);
    CStringTwice(s);
  }

  /** A request with the value of a served tag goes to its case of the
      switch in `handle`. */
  lemma Routed(s: Server.Session, c: Server.Catalog, t: Tag, rest: Bytes, pick: nat)
    requires t != Close
    ensures Server.Request(s, c, TagFrame(t) + rest, pick) == Server.Dispatch(s, c, Code(t), rest, pick)
  {
    IntRoundTrip(Code(t), rest);
    CodesDistinct(t, Close);
  }

  // ---------------------------------------------------------------------
  // ECHO

  /** do_echo on both ends: the server answers ECHO and the string it
      received, and the client shows that string and reads no further. */
  lemma EchoExchange(s: Server.Session, c: Server.Catalog, v: Client.View, text: Bytes,
                     tail: Bytes, more: Bytes, pick: nat)
    requires |CString(text)| < Server.BUF_SIZE
    ensures var ask := TagFrame(Echo) + EncodeStr(text);
      var step := Server.Request(s, c, ask + tail, pick);
      step == Server.Continue(s, ask, tail) &&
      Client.EchoTurn(v, text, step.reply + more) ==
        Client.Go(Client.Show(v, Client.Echoed(CString(text))), ask, more)
  {
    EchoServed(s, c, text, tail, pick);
    EchoRead(text, more);
  }

  lemma EchoServed(s: Server.Session, c: Server.Catalog, text: Bytes, tail: Bytes, pick: nat)
    requires |CString(text)| < Server.BUF_SIZE
    ensures Server.Request(s, c, TagFrame(Echo) + EncodeStr(text) + tail, pick) ==
            Server.Continue(s, TagFrame(Echo) + EncodeStr(text), tail)
  {
    AppendAssoc(TagFrame(Echo), EncodeStr(text), tail);
    Routed(s, c, Echo, EncodeStr(text) + tail, pick);
    EncodeStrOfCString(text);
    StrRoundTrip(CString(text), tail, Server.BUF_SIZE);
    assert Server.Dispatch(s, c, Code(Echo), EncodeStr(text) + tail, pick) == Server.EchoStep(s, EncodeStr(text) + tail);
  }

  lemma EchoRead(text: Bytes, more: Bytes)
    requires |CString(text)| < Client.BUF_SIZE
    ensures Client.ParseEcho(TagFrame(Echo) + EncodeStr(text) + more) == Ok(CString(text), more)
  {
    AppendAssoc(TagFrame(Echo), EncodeStr(text), more);
    IntRoundTrip(Code(Echo), EncodeStr(text) + more);
    ShownRoundTrip(text, more);
  }

  // ---------------------------------------------------------------------
  // USER and PASS

  /** do_user on both ends: the server stores the name as a C string,
      sends nothing, and the client reads nothing. */
  lemma UserExchange(s: Server.Session, c: Server.Catalog, v: Client.View, name: Bytes,
                     tail: Bytes, more: Bytes, pick: nat)
    requires |CString(name)| < Server.NAME_SIZE
    ensures var ask := TagFrame(User) + EncodeStr(name);
      Client.UserTurn(v, Some(name), more) == Client.Go(v, ask, more) &&
      Server.Request(s, c, ask + tail, pick) == Server.Continue(s.(username := CString(name)), [], tail)
  {
    UserServed(s, c, name, tail, pick);
  }

  lemma UserServed(s: Server.Session, c: Server.Catalog, name: Bytes, tail: Bytes, pick: nat)
    requires |CString(name)| < Server.NAME_SIZE
    ensures Server.Request(s, c, TagFrame(User) + EncodeStr(name) + tail, pick) ==
            Server.Continue(s.(username := CString(name)), [], tail)
  {
    AppendAssoc(TagFrame(User), EncodeStr(name), tail);
    Routed(s, c, User, EncodeStr(name) + tail, pick);
    EncodeStrOfCString(name);
    StrRoundTrip(CString(name), tail, Server.NAME_SIZE);
    assert Server.Dispatch(s, c, Code(User), EncodeStr(name) + tail, pick) == Server.UserStep(s, EncodeStr(name) + tail);
  }

  /** do_pass on both ends: the server authenticates exactly when the
      stored user's password matches, and the client reports a successful
      login exactly when the server authenticated. */
  lemma PassExchange(s: Server.Session, c: Server.Catalog, v: Client.View, password: Bytes,
                     tail: Bytes, more: Bytes, pick: nat)
    requires |CString(password)| < Server.NAME_SIZE
    ensures var ask := TagFrame(Pass) + EncodeStr(password);
      var step := Server.Request(s, c, ask + tail, pick);
      step.Continue? && step.rest == tail &&
      step.next == Server.Session(Server.Matches(c.users, s.username, CString(password)),
                                  s.username, CString(password)) &&
      Client.PassTurn(v, Some(password), step.reply + more) ==
        Client.Go(Client.Show(v, if step.next.authenticated then Client.LoggedIn else Client.LoginFailed), ask, more)
  {
    PassServed(s, c, password, tail, pick);
    var ok := Server.Matches(c.users, s.username, CString(password));
    var verdict := if ok then Accept else Deny;
    IntRoundTrip(Code(verdict), more);
    CodesDistinct(verdict, Accept);
  }

  lemma PassServed(s: Server.Session, c: Server.Catalog, password: Bytes, tail: Bytes, pick: nat)
    requires |CString(password)| < Server.NAME_SIZE
    ensures var ok := Server.Matches(c.users, s.username, CString(password));
      Server.Request(s, c, TagFrame(Pass) + EncodeStr(password) + tail, pick) ==
      Server.Continue(Server.Session(ok, s.username, CString(password)), TagFrame(if ok then Accept else Deny), tail)
  {
    AppendAssoc(TagFrame(Pass), EncodeStr(password), tail);
    Routed(s, c, Pass, EncodeStr(password) + tail, pick);
    EncodeStrOfCString(password);
    StrRoundTrip(CString(password), tail, Server.NAME_SIZE);
    assert Server.Dispatch(s, c, Code(Pass), EncodeStr(password) + tail, pick) ==
           Server.PassStep(s, c, EncodeStr(password) + tail);
  }

  // ---------------------------------------------------------------------
  // LIST

  /** One row as do_list prints it: the three strings list_callback sent. */
  function Shown(r: Server.Record): Client.Listing
  {
    Client.Listing(Server.IntText(r.id), CString(r.name), CString(r.path))
  }

  /** The printed rows of a table, in order. */
  function Listings(rows: seq<Server.Record>): (l: seq<Client.Listing>)
    ensures |l| == |rows|
  {
    if rows == [] then [] else [Shown(rows[0])] + Listings(rows[1..])
  }

  /** Every column of the row fits the client's 1024-byte buffer. */
  predicate Printable(r: Server.Record)
  {
    |Server.IntText(r.id)| < Client.BUF_SIZE &&
    |CString(r.name)| < Client.BUF_SIZE && |CString(r.path)| < Client.BUF_SIZE
  }

  /** A ROW frame as list_callback writes it is read back by do_list as
      the row's three columns, and nothing after it is consumed. */
  lemma RowExchange(r: Server.Record, more: Bytes)
    requires Printable(r)
    ensures Client.ParseRow(Server.RowFrame(r) + more) == Ok(Shown(r), more)
  {
    var a, b, c, d := TagFrame(Row), EncodeStr(Server.IntText(r.id)), EncodeStr(r.name), EncodeStr(r.path);
    AppendAssoc(a + b + c, d, more);
    AppendAssoc(a + b, c, d + more);
    AppendAssoc(a, b, c + (d + more));
    IntRoundTrip(Code(Row), b + (c + (d + more)));
    ShownRoundTrip(Server.IntText(r.id), c + (d + more));
    CStringOfNulFree(Server.IntText(r.id));
    ShownRoundTrip(r.name, d + more);
    ShownRoundTrip(r.path, more);
  }

  /** The ROW frames of a table are read back, row by row, as its rows. */
  lemma {:induction false} RowsExchange(rows: seq<Server.Record>, more: Bytes)
    requires forall i :: 0 <= i < |rows| ==> Printable(rows[i])
    ensures Client.ParseRows(Server.RowFrames(rows) + more, |rows|) == Ok(Listings(rows), more)
    decreases |rows|
  {
    if rows != [] {
      var r, others := rows[0], rows[1..];
      assert rows == [r] + others;
      RowsExchange(others, more);
      RowsExchangeStep(r, others, more);
    } else {
      assert Server.RowFrames(rows) + more == more;
    }
  }

  /** One more row in front of rows already read back. */
  lemma RowsExchangeStep(r: Server.Record, others: seq<Server.Record>, more: Bytes)
    requires Printable(r)
    requires Client.ParseRows(Server.RowFrames(others) + more, |others|) == Ok(Listings(others), more)
    ensures Client.ParseRows(Server.RowFrames([r] + others) + more, |others| + 1) == Ok(Listings([r] + others), more)
  {
    var later := Server.RowFrames(others) + more;
    Server.RowFramesCons(r, others);
    AppendAssoc(Server.RowFrame(r), Server.RowFrames(others), more);
    RowExchange(r, later);
    RowsCons(Server.RowFrame(r) + later, Shown(r), later, Listings(others), more);
    assert ([r] + others)[1..] == others;
  }

  /** A ROW frame read, then the remaining ones. */
  lemma RowsCons(inp: Bytes, row: Client.Listing, later: Bytes, rows: seq<Client.Listing>, more: Bytes)
    requires Client.ParseRow(inp) == Ok(row, later)
    requires Client.ParseRows(later, |rows|) == Ok(rows, more)
    ensures Client.ParseRows(inp, |rows| + 1) == Ok([row] + rows, more)
  {
    Client.ParseRowsStep(inp, |rows| + 1);
  }

  /** do_list on both ends: the server answers LIST, the row count and a
      ROW frame per row, and the client prints exactly the table's rows,
      in order, and reads no further. */
  lemma ListExchange(s: Server.Session, c: Server.Catalog, v: Client.View,
                     tail: Bytes, more: Bytes, pick: nat)
    requires |c.files| < I32_RANGE
    requires forall i :: 0 <= i < |c.files| ==> Printable(c.files[i])
    ensures var step := Server.Request(s, c, TagFrame(List) + tail, pick);
      step == Server.Continue(s, Server.ListReply(c.files), tail) &&
      Client.ListTurn(v, step.reply + more) ==
        Client.Go(v.(shown := v.shown + Client.RowNotes(Listings(c.files))), TagFrame(List), more)
  {
    ListServed(s, c, tail, pick);
    ListRead(c.files, more);
  }

  lemma ListServed(s: Server.Session, c: Server.Catalog, tail: Bytes, pick: nat)
    ensures Server.Request(s, c, TagFrame(List) + tail, pick) == Server.Continue(s, Server.ListReply(c.files), tail)
  {
    Routed(s, c, List, tail, pick);
    assert Server.Dispatch(s, c, Code(List), tail, pick) == Server.Continue(s, Server.ListReply(c.files), tail);
  }

  /** The whole LIST reply is read back as the table's rows. */
  lemma ListRead(files: seq<Server.Record>, more: Bytes)
    requires |files| < I32_RANGE
    requires forall i :: 0 <= i < |files| ==> Printable(files[i])
    ensures Client.ParseList(Server.ListReply(files) + more) == Ok(Listings(files), more)
  {
    var count := EncodeU32(Wrap32(|files|));
    var frames := Server.RowFrames(files);
    AppendAssoc(TagFrame(List) + count, frames, more);
    AppendAssoc(TagFrame(List), count, frames + more);
    IntRoundTrip(Code(List), count + (frames + more));
    IntRoundTrip(Wrap32(|files|), frames + more);
    RowsExchange(files, more);
  }

  // ---------------------------------------------------------------------
  // FILE

  /** What a download is meant to end with: DENY before a matching PASS,
      NOFILE for an unknown id or a path not on disk, otherwise the file's
      contents. */
  function DiskFetch(disk: map<Bytes, Bytes>, path: Bytes): Client.Fetch
  {
    if path in disk then Client.Received(disk[path]) else Client.Missing
  }

  function Intended(s: Server.Session, c: Server.Catalog, id: int): Client.Fetch
  {
    if !s.authenticated then Client.Denied
    else match Server.Lookup(c.files, id)
      case None => Client.Missing
      case Some(r) => DiskFetch(c.disk, CString(r.path))
  }

  /** The client's globals once a reply has been taken: "Access denied" or
      "No such file" printed, or the body saved as the local file `dest`. */
  function Settled(v: Client.View, f: Client.Fetch, dest: Bytes): Client.View
  {
    match f
    case Denied => Client.Show(v, Client.AccessDenied)
    case Missing => Client.Show(v, Client.NoSuchFile)
    case Received(data) => v.(files := v.files[dest := data])
  }

  /** A reply the client parses is settled as `Settled` says. */
  lemma FetchSettles(v: Client.View, sent: Bytes, dest: Bytes, inp: Bytes)
    requires Client.ParseFetch(inp).Ok?
    ensures Client.FetchTurn(v, sent, Some(dest), inp) ==
            Client.Go(Settled(v, Client.ParseFetch(inp).value, dest), sent, Client.ParseFetch(inp).rest)
  {
  }

  /** Every file on disk has a size a `uint32_t` holds. */
  predicate Sized(disk: map<Bytes, Bytes>)
  {
    forall p :: p in disk ==> |disk[p]| < U32_RANGE
  }

  /** What send_file writes is read back by the client as that file, or
      as NOFILE, and nothing after it is consumed. */
  lemma FileReplyExchange(disk: map<Bytes, Bytes>, path: Bytes, more: Bytes)
    requires Sized(disk)
    ensures Client.ParseFetch(Server.FileReply(disk, path) + more) == Ok(DiskFetch(disk, path), more)
  {
    if path in disk {
      var data := disk[path];
      AppendAssoc(TagFrame(File) + EncodeU32(|data|), data, more);
      AppendAssoc(TagFrame(File), EncodeU32(|data|), data + more);
      IntRoundTrip(Code(File), EncodeU32(|data|) + (data + more));
      IntRoundTrip(|data|, data + more);
      assert (data + more)[..|data|] == data;
      assert (data + more)[|data|..] == more;
    } else {
      IntRoundTrip(Code(NoFile), more);
    }
  }

  /** do_download and do_file on both ends: the id the client sends is the
      id the server looks up, and the client ends as intended: "Access
      denied", "No such file", or the file saved at `dest`, with the whole
      reply consumed. */
  lemma FileExchange(s: Server.Session, c: Server.Catalog, v: Client.View, id: int, dest: Bytes,
                     tail: Bytes, more: Bytes, pick: nat)
    requires -I32_RANGE <= id < I32_RANGE
    requires Sized(c.disk)
    ensures var ask := TagFrame(File) + EncodeU32(Wrap32(id));
      var step := Server.Request(s, c, ask + tail, pick);
      step.Continue? && step.next == s && step.rest == tail &&
      Client.ParseFetch(step.reply + more) == Ok(Intended(s, c, id), more) &&
      Client.FetchTurn(v, ask, Some(dest), step.reply + more) == Client.Go(Settled(v, Intended(s, c, id), dest), ask, more)
  {
    FileParsed(s, c, id, tail, more, pick);
    var ask := TagFrame(File) + EncodeU32(Wrap32(id));
    FetchSettles(v, ask, dest, Server.Request(s, c, ask + tail, pick).reply + more);
  }

  lemma FileParsed(s: Server.Session, c: Server.Catalog, id: int, tail: Bytes, more: Bytes, pick: nat)
    requires -I32_RANGE <= id < I32_RANGE
    requires Sized(c.disk)
    ensures var ask := TagFrame(File) + EncodeU32(Wrap32(id));
      var step := Server.Request(s, c, ask + tail, pick);
      step.Continue? && step.next == s && step.rest == tail &&
      Client.ParseFetch(step.reply + more) == Ok(Intended(s, c, id), more)
  {
    var w := Wrap32(id);
    AppendAssoc(TagFrame(File), EncodeU32(w), tail);
    IntRoundTrip(Code(File), EncodeU32(w) + tail);
    IntRoundTrip(w, tail);
    ToInt32Wrap32(id);
    var step := Server.FileStep(s, c, EncodeU32(w) + tail);
    assert Server.Dispatch(s, c, Code(File), EncodeU32(w) + tail, pick) == step;
    if !s.authenticated {
      IntRoundTrip(Code(Deny), more);
    } else if Server.Lookup(c.files, id).None? {
      IntRoundTrip(Code(NoFile), more);
    } else {
      FileReplyExchange(c.disk, CString(Server.Lookup(c.files, id).value.path), more);
    }
  }

  // ---------------------------------------------------------------------
  // A listed id typed back

  /** The digits of a number read back by atoi. */
  lemma {:induction false} DigitsOfDecimal(n: nat)
    ensures Client.DigitsValue(Server.Decimal(n)) == n
  {
    if n >= 10 {
      var d := Server.Decimal(n);
      assert d[..|d| - 1] == Server.Decimal(n / 10);
      DigitsOfDecimal(n / 10);
    }
  }

  /** atoi reads back the text SQLite gives an integer column. */
  lemma AtoiOfIntText(x: int)
    ensures Client.Atoi(Server.IntText(x)) == x
  {
    if x < 0 {
      Client.AtoiOfDigits(Server.Decimal(-x));
      DigitsOfDecimal(-x);
    } else {
      Client.AtoiOfDigits(Server.Decimal(x));
      DigitsOfDecimal(x);
    }
  }

  /** The text of an integer has no delimiter of strtok in it. */
  lemma IntTextIsWord(x: int)
    ensures Server.IntText(x) != []
    ensures forall i :: 0 <= i < |Server.IntText(x)| ==> !Client.IsDelim(Server.IntText(x)[i])
  {
    var t := Server.IntText(x);
    forall i | 0 <= i < |t|
      ensures !Client.IsDelim(t[i])
    {
      if x < 0 && i > 0 {
        assert t[i] == Server.Decimal(-x)[i - 1];
      }
    }
  }

  /** The line `download <id> <dest>` with the id as do_list printed it. */
  function DownloadLine(x: int, dest: Bytes): Bytes
  {
    Client.DOWNLOAD_WORD + [0x20] + (Server.IntText(x) + [0x20] + (dest + [0x0A]))
  }

  /** Typing back an id that do_list printed sends FILE with that id, so
      the server looks up the row that was listed. */
  lemma DownloadOfListedId(v: Client.View, x: int, dest: Bytes, inp: Bytes)
    requires -I32_RANGE <= x < I32_RANGE
    requires dest != [] && NulFree(dest) && forall i :: 0 <= i < |dest| ==> !Client.IsDelim(dest[i])
    ensures var ask := TagFrame(File) + EncodeU32(Wrap32(x));
      Client.Command(v, DownloadLine(x, dest), inp) == Client.FetchTurn(v, ask, Some(dest), inp) &&
      ToInt32(Wrap32(x)) == x
  {
    DownloadLineTokens(x, dest);
    AtoiOfIntText(x);
    ToInt32Wrap32(x);
  }

  /** `download <id> <dest>` typed with a listed id, end to end: the
      server answers FILE for that id, and the client ends as intended,
      with the whole reply consumed. */
  lemma DownloadExchange(s: Server.Session, c: Server.Catalog, v: Client.View, x: int, dest: Bytes,
                         tail: Bytes, more: Bytes, pick: nat)
    requires -I32_RANGE <= x < I32_RANGE && Sized(c.disk)
    requires dest != [] && NulFree(dest) && forall i :: 0 <= i < |dest| ==> !Client.IsDelim(dest[i])
    ensures var ask := TagFrame(File) + EncodeU32(Wrap32(x));
      var step := Server.Request(s, c, ask + tail, pick);
      step.Continue? && step.next == s && step.rest == tail &&
      Client.Command(v, DownloadLine(x, dest), step.reply + more) ==
        Client.Go(Settled(v, Intended(s, c, x), dest), ask, more)
  {
    var ask := TagFrame(File) + EncodeU32(Wrap32(x));
    FileExchange(s, c, v, x, dest, tail, more, pick);
    DownloadOfListedId(v, x, dest, Server.Request(s, c, ask + tail, pick).reply + more);
  }

  /** strtok splits the line into the word, the id's text and the path. */
  lemma DownloadLineTokens(x: int, dest: Bytes)
    requires dest != [] && NulFree(dest) && forall i :: 0 <= i < |dest| ==> !Client.IsDelim(dest[i])
    ensures var line := CString(DownloadLine(x, dest));
      var after := Server.IntText(x) + [0x20] + (dest + [0x0A]);
      Client.NextToken(line) == Some(Client.Token(Client.DOWNLOAD_WORD, after)) &&
      Client.NextToken(after) == Some(Client.Token(Server.IntText(x), dest + [0x0A])) &&
      Client.Arg(dest + [0x0A]) == Some(dest)
  {
    var after := Server.IntText(x) + [0x20] + (dest + [0x0A]);
    DownloadLineNulFree(x, dest);
    CStringOfNulFree(DownloadLine(x, dest));
    Client.TokenOfWord(Client.DOWNLOAD_WORD, 0x20, after);
    IntTextIsWord(x);
    Client.TokenOfWord(Server.IntText(x), 0x20, dest + [0x0A]);
    PathToken(dest);
  }

  lemma PathToken(dest: Bytes)
    requires dest != [] && forall i :: 0 <= i < |dest| ==> !Client.IsDelim(dest[i])
    ensures Client.Arg(dest + [0x0A]) == Some(dest)
  {
    Client.TokenOfWord(dest, 0x0A, []);
    assert dest + [0x0A] + [] == dest + [0x0A];
  }

  lemma DownloadLineNulFree(x: int, dest: Bytes)
    requires NulFree(dest)
    ensures NulFree(DownloadLine(x, dest))
  {
    var id := Server.IntText(x);
    var path := dest + [0x0A];
    var after := id + [0x20] + path;
    assert NulFree(path) by {
      forall i | 0 <= i < |path| ensures path[i] != 0 {
        if i < |dest| {
          assert path[i] == dest[i];
        }
      }
    }
    assert NulFree(after) by {
      forall i | 0 <= i < |after| ensures after[i] != 0 {
        if i < |id| {
          assert after[i] == id[i];
        } else if i > |id| {
          assert after[i] == path[i - |id| - 1];
        }
      }
    }
    var line := DownloadLine(x, dest);
    forall i | 0 <= i < |line| ensures line[i] != 0 {
      if i > 8 {
        assert line[i] == after[i - 9];
      }
    }
  }

  // ---------------------------------------------------------------------
  // RANDOM

  /** The row RANDOM serves, when there is one. */
  function Chosen(c: Server.Catalog, pick: nat): Server.Record
    requires c.files != []
  {
    c.files[pick % |c.files|]
  }

  /** What RANDOM should end with on the client: DENY before a matching
      PASS, NOFILE on an empty table, otherwise the chosen row's file. */
  function RandomIntended(s: Server.Session, c: Server.Catalog, pick: nat): Client.Fetch
  {
    if !s.authenticated then Client.Denied
    else if c.files == [] then Client.Missing
    else DiskFetch(c.disk, CString(Chosen(c, pick).path))
  }

  /** The RANDOM request goes to do_random, whose reply is RandomReply. */
  lemma RandomRequest(s: Server.Session, c: Server.Catalog, tail: Bytes, pick: nat)
    ensures Server.Request(s, c, TagFrame(Random) + tail, pick) ==
            Server.Continue(s, Server.RandomReply(s, c, pick), tail)
  {
    IntRoundTrip(Code(Random), tail);
  }

  /** As written, the client does not read the RANDOM reply as intended
      exactly when the server sends a file row: the bare id in front of
      send_file's output is taken for the reply tag. */
  lemma RandomMisread(s: Server.Session, c: Server.Catalog, pick: nat, more: Bytes)
    requires Sized(c.disk)
    ensures Client.ParseFetch(Server.RandomReply(s, c, pick) + more) == Ok(RandomIntended(s, c, pick), more)
        <==> !(s.authenticated && c.files != [])
  {
    if !s.authenticated {
      IntRoundTrip(Code(Deny), more);
    } else if c.files == [] {
      IntRoundTrip(Code(NoFile), more);
    } else {
      RandomRowMisread(c, pick, more);
    }
  }

  /** The case that goes wrong: whatever the id, the file and its size,
      the client either ends with another outcome or stops at another
      place in the stream. */
  lemma RandomRowMisread(c: Server.Catalog, pick: nat, more: Bytes)
    requires Sized(c.disk) && c.files != []
    ensures Client.ParseFetch(Server.RandomReply(Server.Session(true, [], []), c, pick) + more) !=
            Ok(DiskFetch(c.disk, CString(Chosen(c, pick).path)), more)
  {
    var r := Chosen(c, pick);
    var path := CString(r.path);
    var w := Wrap32(r.id);
    var body := Server.FileReply(c.disk, path);
    var inp := EncodeU32(w) + body + more;
    AppendAssoc(EncodeU32(w), body, more);
    IntRoundTrip(w, body + more);
    assert |body| >= 4;
    if w != Code(Deny) && w != Code(NoFile) {
      // the FILE or NOFILE tag is taken for the size
      if path in c.disk {
        var data := c.disk[path];
        AppendAssoc(TagFrame(File), EncodeU32(|data|) + data, more);
        assert body + more == TagFrame(File) + (EncodeU32(|data|) + data + more);
        IntRoundTrip(Code(File), EncodeU32(|data|) + data + more);
      } else {
        IntRoundTrip(Code(NoFile), more);
      }
    }
  }

  /** Concretely: a chosen row with id 5 makes the client print "Access
      denied" to an authenticated user, and leaves the file in the stream. */
  lemma RandomIdFiveReadAsDenied(s: Server.Session, c: Server.Catalog, v: Client.View, name: Bytes, path: Bytes,
                                 dest: Bytes, more: Bytes)
    requires s.authenticated && c.files == [Server.Record(5, name, path)]
    ensures var left := Server.FileReply(c.disk, CString(path)) + more;
      Client.ParseFetch(Server.RandomReply(s, c, 0) + more) == Ok(Client.Denied, left) &&
      Client.FetchTurn(v, TagFrame(Random), Some(dest), Server.RandomReply(s, c, 0) + more) ==
        Client.Go(Client.Show(v, Client.AccessDenied), TagFrame(Random), left)
  {
    AppendAssoc(EncodeU32(5), Server.FileReply(c.disk, CString(path)), more);
    IntRoundTrip(5, Server.FileReply(c.disk, CString(path)) + more);
    FetchSettles(v, TagFrame(Random), dest, Server.RandomReply(s, c, 0) + more);
  }

  /** Concretely: a chosen row with id 9 is reported as "No such file". */
  lemma RandomIdNineReadAsMissing(s: Server.Session, c: Server.Catalog, v: Client.View, name: Bytes, path: Bytes,
                                  dest: Bytes, more: Bytes)
    requires s.authenticated && c.files == [Server.Record(9, name, path)]
    ensures var left := Server.FileReply(c.disk, CString(path)) + more;
      Client.ParseFetch(Server.RandomReply(s, c, 0) + more) == Ok(Client.Missing, left) &&
      Client.FetchTurn(v, TagFrame(Random), Some(dest), Server.RandomReply(s, c, 0) + more) ==
        Client.Go(Client.Show(v, Client.NoSuchFile), TagFrame(Random), left)
  {
    AppendAssoc(EncodeU32(9), Server.FileReply(c.disk, CString(path)), more);
    IntRoundTrip(9, Server.FileReply(c.disk, CString(path)) + more);
    FetchSettles(v, TagFrame(Random), dest, Server.RandomReply(s, c, 0) + more);
  }

  /** The reply do_random evidently means to send: without the bare id of
      server.c:351, that is DENY, NOFILE, or what send_file writes. */
  function FixedRandomReply(s: Server.Session, c: Server.Catalog, pick: nat): (b: Bytes)
    ensures s.authenticated && c.files != [] ==>
      Server.RandomReply(s, c, pick) == EncodeU32(Wrap32(Chosen(c, pick).id)) + b
    ensures !(s.authenticated && c.files != []) ==> Server.RandomReply(s, c, pick) == b
  {
    if !s.authenticated then TagFrame(Deny)
    else if c.files == [] then TagFrame(NoFile)
    else Server.FileReply(c.disk, CString(Chosen(c, pick).path))
  }

  /** With the id left out, the client reads the RANDOM reply as intended,
      ends as intended ("Access denied", "No such file", or the chosen file
      saved at `dest`), and consumes exactly that reply. */
  lemma FixedRandomExchange(s: Server.Session, c: Server.Catalog, v: Client.View, dest: Bytes, pick: nat, more: Bytes)
    requires Sized(c.disk)
    ensures Client.ParseFetch(FixedRandomReply(s, c, pick) + more) == Ok(RandomIntended(s, c, pick), more)
    ensures Client.FetchTurn(v, TagFrame(Random), Some(dest), FixedRandomReply(s, c, pick) + more) ==
            Client.Go(Settled(v, RandomIntended(s, c, pick), dest), TagFrame(Random), more)
  {
    FixedRandomParsed(s, c, pick, more);
    FetchSettles(v, TagFrame(Random), dest, FixedRandomReply(s, c, pick) + more);
  }

  lemma FixedRandomParsed(s: Server.Session, c: Server.Catalog, pick: nat, more: Bytes)
    requires Sized(c.disk)
    ensures Client.ParseFetch(FixedRandomReply(s, c, pick) + more) == Ok(RandomIntended(s, c, pick), more)
  {
    if !s.authenticated {
      IntRoundTrip(Code(Deny), more);
    } else if c.files == [] {
      IntRoundTrip(Code(NoFile), more);
    } else {
      FileReplyExchange(c.disk, CString(Chosen(c, pick).path), more);
    }
  }
}
