/**
 The line protocol between cmd/client/main.go and the TCP server: what the client prints, how Handler of
 internal/server/server.go cuts the stream into messages, and how DoMessage of internal/server/user.go
 takes them apart.
 */
module Protocol {
  import opened Text

  datatype Command =
    | Login(user: string, password: string)
    | Register(user: string, password: string)
    | Who
    | Rename(name: string)
    | To(target: string, text: string)
    | GroupCreate(group: string)
    | GroupJoin(group: string)
    | GroupLeave(group: string)
    | GroupSend(group: string, text: string)
    | Say(text: string)

  /** A command, or a message that is answered with an explanation of the format. */
  datatype Parsed = Parsed(command: Command) | Rejected

  /** Whether a command is understood before or after login. */
  predicate AfterLogin(c: Command) {
    !c.Login? && !c.Register?
  }

  // ----- The client

  const BAR := '|'

  function Printed(c: Command): string {
    match c
    case Login(user, password) => "login" + [BAR] + (user + [BAR] + password)
    case Register(user, password) => "register" + [BAR] + (user + [BAR] + password)
    case Who => "who"
    case Rename(name) => "rename" + [BAR] + name
    case To(target, text) => "to" + [BAR] + (target + [BAR] + text)
    case GroupCreate(group) => "group" + [BAR] + ("create" + [BAR] + group)
    case GroupJoin(group) => "group" + [BAR] + ("join" + [BAR] + group)
    case GroupLeave(group) => "group" + [BAR] + ("leave" + [BAR] + group)
    case GroupSend(group, text) => "group" + [BAR] + ("send" + [BAR] + (group + [BAR] + text))
    case Say(text) => text
  }

  /** Everything a client writes for a list of commands. */
  function Stream(cs: seq<Command>): string {
    if cs == [] then [] else Printed(cs[0]) + ['\n'] + Stream(cs[1..])
  }

  // ----- The server

  predicate NameChar(c: char) {
    || 'a' <= c <= 'z' || 'A' <= c <= 'Z' || '0' <= c <= '9' || c == '_'
    || 0x4E00 <= c as int <= 0x9FA5
  }

  predicate IsValidUsername(name: string) {
    2 <= |name| <= 20 && forall i :: 0 <= i < |name| ==> NameChar(name[i])
  }

  function LowerChar(c: char): char {
    if 'A' <= c <= 'Z' then (c as int + 32) as char else c
  }

  /** Lower case, as far as the keywords can tell. */
  function Lower(s: string): (r: string)
    ensures |r| == |s| && forall i :: 0 <= i < |s| ==> r[i] == LowerChar(s[i])
  {
    seq(|s|, i requires 0 <= i < |s| => LowerChar(s[i]))
  }

  // Each kind of message, once it has been split at the bars.

  function CredentialsOf(login: bool, parts: seq<string>): Parsed {
    if |parts| != 3 then Rejected
    else
      var user, password := TrimSpace(parts[1]), TrimSpace(parts[2]);
      if !IsValidUsername(user) then Rejected
      else Parsed(if login then Login(user, password) else Register(user, password))
  }

  function RenameOf(parts: seq<string>): Parsed {
    if |parts| != 2 || TrimSpace(parts[1]) == [] then Rejected else Parsed(Rename(TrimSpace(parts[1])))
  }

  function ToOf(parts: seq<string>): Parsed {
    if |parts| != 3 || TrimSpace(parts[1]) == [] || TrimSpace(parts[2]) == [] then Rejected
    else Parsed(To(TrimSpace(parts[1]), TrimSpace(parts[2])))
  }

  function GroupOf(parts: seq<string>): Parsed {
    if |parts| < 2 then Rejected
    else
      var cmd := TrimSpace(parts[1]);
      if cmd == "create" then
        if |parts| != 3 then Rejected else Parsed(GroupCreate(TrimSpace(parts[2])))
      else if cmd == "join" then
        if |parts| != 3 then Rejected else Parsed(GroupJoin(TrimSpace(parts[2])))
      else if cmd == "leave" then
        if |parts| != 3 then Rejected else Parsed(GroupLeave(TrimSpace(parts[2])))
      else if cmd == "send" then
        if |parts| != 4 then Rejected else Parsed(GroupSend(TrimSpace(parts[2]), TrimSpace(parts[3])))
      else Rejected
  }

  function ParseBeforeLogin(msg: string): Parsed {
    if "login|" <= msg then CredentialsOf(true, Split(msg, BAR))
    else if "register|" <= msg then CredentialsOf(false, Split(msg, BAR))
    else Rejected
  }

  function ParseAfterLogin(line: string): Parsed {
    var msg := TrimSpace(line);
    var lower := Lower(msg);
    if lower == "who" then Parsed(Who)
    else if "rename|" <= lower then RenameOf(SplitN(msg, BAR, 2))
    else if "to|" <= lower then ToOf(SplitN(msg, BAR, 3))
    else if "group|" <= lower then GroupOf(SplitN(msg, BAR, 4))
    else Parsed(Say(msg))
  }

  /** DoMessage, up to what it then does. */
  function Parse(auth: bool, msg: string): Parsed {
    if auth then ParseAfterLogin(msg) else ParseBeforeLogin(msg)
  }

  function DropCR(line: string): string {
    if line != [] && line[|line| - 1] == '\r' then line[..|line| - 1] else line
  }

  /** bufio.ScanLines: lines end with a newline, an optional carriage return is dropped, the last may be open. */
  function ScanLines(s: string): seq<string>
    decreases |s|
  {
    if s == [] then []
    else if '\n' !in s then [DropCR(s)]
    else [DropCR(s[..IndexOf(s, '\n')])] + ScanLines(s[IndexOf(s, '\n') + 1..])
  }

  /** The messages handed to DoMessage: lines trimmed, empty ones skipped. */
  function Messages(lines: seq<string>): seq<string> {
    if lines == [] then []
    else
      var msg := TrimSpace(lines[0]);
      (if msg == [] then [] else [msg]) + Messages(lines[1..])
  }

  /** A connection's messages in turn; accepted[i] says whether a login at message i succeeds. */
  function Serve(auth: bool, msgs: seq<string>, accepted: seq<bool>): seq<Parsed>
    requires |accepted| == |msgs|
    decreases |msgs|
  {
    if msgs == [] then []
    else
      var p := Parse(auth, msgs[0]);
      [p] + Serve(auth || (p.Parsed? && p.command.Login? && accepted[0]), msgs[1..], accepted[1..])
  }

  // ----- Well-formed commands

  predicate Field(s: string) {
    Trimmed(s) && BAR !in s
  }

  predicate PlainText(s: string) {
    var lower := Lower(s);
    s != [] && Trimmed(s) && lower != "who" && !("rename|" <= lower) && !("to|" <= lower) && !("group|" <= lower)
  }

  predicate WellFormed(c: Command) {
    match c
    case Login(user, password) => IsValidUsername(user) && Field(password)
    case Register(user, password) => IsValidUsername(user) && Field(password)
    case Who => true
    case Rename(name) => name != [] && Trimmed(name)
    case To(target, text) => target != [] && Field(target) && text != [] && Trimmed(text)
    case GroupCreate(group) => Field(group)
    case GroupJoin(group) => Field(group)
    case GroupLeave(group) => Field(group)
    case GroupSend(group, text) => Field(group) && Trimmed(text)
    case Say(text) => PlainText(text)
  }

  lemma {:induction false} ValidNameIsField(name: string)
    requires IsValidUsername(name)
    ensures Field(name) && name != [] && '\n' !in name
  {
    assert NameChar(name[0]) && NameChar(name[|name| - 1]);
  }

  // ----- Whatever the server makes of a message is well formed

  lemma TrimmedField(s: string)
    ensures Trimmed(TrimSpace(s)) && (BAR !in s ==> Field(TrimSpace(s)))
  {
    TrimSpaceIsTrimmed(s);
  }

  ghost predicate Sound(p: Parsed, auth: bool) {
    p.Parsed? ==> WellFormed(p.command) && AfterLogin(p.command) == auth
  }

  lemma CredentialsAreWellFormed(login: bool, parts: seq<string>)
    requires forall i :: 0 <= i < |parts| ==> BAR !in parts[i]
    ensures Sound(CredentialsOf(login, parts), false)
  {
    if |parts| == 3 {
      TrimmedField(parts[2]);
    }
  }

  lemma RenameIsWellFormed(parts: seq<string>)
    ensures Sound(RenameOf(parts), true)
  {
    if |parts| == 2 {
      TrimmedField(parts[1]);
    }
  }

  lemma ToIsWellFormed(parts: seq<string>)
    requires |parts| == 3 ==> BAR !in parts[1]
    ensures Sound(ToOf(parts), true)
  {
    if |parts| == 3 {
      TrimmedField(parts[1]);
      TrimmedField(parts[2]);
    }
  }

  lemma GroupIsWellFormed(parts: seq<string>)
    requires |parts| >= 3 ==> BAR !in parts[2]
    ensures Sound(GroupOf(parts), true)
  {
    if |parts| >= 3 {
      TrimmedField(parts[2]);
    }
    if |parts| >= 4 {
      TrimmedField(parts[3]);
    }
  }

  lemma SplitNParts(msg: string)
    ensures var parts := SplitN(msg, BAR, 3); |parts| == 3 ==> BAR !in parts[1]
    ensures var parts := SplitN(msg, BAR, 4); |parts| >= 3 ==> BAR !in parts[2]
  {
    if |SplitN(msg, BAR, 3)| == 3 {
      SplitNHasNoSeparator(msg, BAR, 3, 1);
    }
    if |SplitN(msg, BAR, 4)| >= 3 {
      SplitNHasNoSeparator(msg, BAR, 4, 2);
    }
  }

  lemma AfterLoginIsWellFormed(msg: string)
    requires TrimSpace(msg) != []
    ensures Sound(ParseAfterLogin(msg), true)
  {
    var m := TrimSpace(msg);
    var lower := Lower(m);
    SplitNParts(m);
    if lower == "who" {
    } else if "rename|" <= lower {
      RenameIsWellFormed(SplitN(m, BAR, 2));
    } else if "to|" <= lower {
      ToIsWellFormed(SplitN(m, BAR, 3));
    } else if "group|" <= lower {
      GroupIsWellFormed(SplitN(m, BAR, 4));
    } else {
      TrimSpaceIsTrimmed(msg);
      assert PlainText(m);
    }
  }

  lemma ParsedIsWellFormed(auth: bool, msg: string)
    requires TrimSpace(msg) != []
    ensures Sound(Parse(auth, msg), auth)
  {
    if auth {
      AfterLoginIsWellFormed(msg);
    } else {
      SplitHasNoSeparator(msg, BAR);
      CredentialsAreWellFormed("login|" <= msg, Split(msg, BAR));
    }
  }

  // ----- And every well-formed command survives the trip

  lemma PrintedIsTrimmed(c: Command)
    requires WellFormed(c)
    ensures Trimmed(Printed(c)) && Printed(c) != []
  {
  }

  // Which branch a keyword and a bar at the front lead to, whatever follows.

  lemma LowerRename(rest: string)
    ensures var lower := Lower("rename" + [BAR] + rest); "rename|" <= lower && lower != "who"
  {
    var s := "rename" + [BAR] + rest;
    assert Lower(s)[0] == 'r';
    assert forall i :: 0 <= i < 7 ==> s[i] == "rename|"[i] && LowerChar(s[i]) == s[i];
  }

  lemma LowerTo(rest: string)
    ensures var lower := Lower("to" + [BAR] + rest); "to|" <= lower && lower != "who" && !("rename|" <= lower)
  {
    var s := "to" + [BAR] + rest;
    assert Lower(s)[0] == 't' && "rename|"[0] == 'r';
    assert forall i :: 0 <= i < 3 ==> s[i] == "to|"[i] && LowerChar(s[i]) == s[i];
  }

  lemma LowerGroup(rest: string)
    ensures var lower := Lower("group" + [BAR] + rest);
            "group|" <= lower && lower != "who" && !("rename|" <= lower) && !("to|" <= lower)
  {
    var s := "group" + [BAR] + rest;
    assert Lower(s)[0] == 'g' && "rename|"[0] == 'r' && "to|"[0] == 't';
    assert forall i :: 0 <= i < 6 ==> s[i] == "group|"[i] && LowerChar(s[i]) == s[i];
  }

  lemma CredentialParts(keyword: string, user: string, password: string)
    requires BAR !in keyword && IsValidUsername(user) && Field(password)
    ensures Split(keyword + [BAR] + (user + [BAR] + password), BAR) == [keyword, user, password]
    ensures TrimSpace(user) == user && TrimSpace(password) == password
  {
    ValidNameIsField(user);
    Split3(keyword, BAR, user, password);
    TrimSpaceIsTrimmed(user);
    TrimSpaceIsTrimmed(password);
  }

  lemma LoginKeyword(rest: string)
    ensures "login|" <= "login" + [BAR] + rest
  {
    assert "login" + [BAR] == "login|";
  }

  lemma RegisterKeyword(rest: string)
    ensures "register|" <= "register" + [BAR] + rest && !("login|" <= "register" + [BAR] + rest)
  {
    assert "register" + [BAR] == "register|";
    assert ("register" + [BAR] + rest)[0] == 'r' && "login|"[0] == 'l';
  }

  /** A message of three good parts is taken for the credentials in it. */
  lemma CredentialsFound(login: bool, msg: string, keyword: string, user: string, password: string)
    requires if login then "login|" <= msg else "register|" <= msg && !("login|" <= msg)
    requires Split(msg, BAR) == [keyword, user, password] && IsValidUsername(user)
    requires TrimSpace(user) == user && TrimSpace(password) == password
    ensures ParseBeforeLogin(msg) == Parsed(if login then Login(user, password) else Register(user, password))
  {
  }

  lemma LoginRoundTrip(c: Command)
    requires WellFormed(c) && c.Login?
    ensures ParseBeforeLogin(Printed(c)) == Parsed(c)
  {
    CredentialParts("login", c.user, c.password);
    LoginKeyword(c.user + [BAR] + c.password);
    CredentialsFound(true, Printed(c), "login", c.user, c.password);
  }

  lemma RegisterRoundTrip(c: Command)
    requires WellFormed(c) && c.Register?
    ensures ParseBeforeLogin(Printed(c)) == Parsed(c)
  {
    CredentialParts("register", c.user, c.password);
    RegisterKeyword(c.user + [BAR] + c.password);
    CredentialsFound(false, Printed(c), "register", c.user, c.password);
  }

  lemma RenameRoundTrip(name: string)
    requires name != [] && Trimmed(name)
    ensures RenameOf(SplitN("rename" + [BAR] + name, BAR, 2)) == Parsed(Rename(name))
  {
    SplitN2("rename", BAR, name, 2);
    TrimSpaceIsTrimmed(name);
  }

  lemma ToRoundTrip(target: string, text: string)
    requires WellFormed(To(target, text))
    ensures ToOf(SplitN("to" + [BAR] + (target + [BAR] + text), BAR, 3)) == Parsed(To(target, text))
  {
    SplitN3("to", BAR, target, text, 3);
    TrimSpaceIsTrimmed(target);
    TrimSpaceIsTrimmed(text);
  }

  /** What follows the keyword "group". */
  function GroupRest(c: Command): string
    requires c.GroupCreate? || c.GroupJoin? || c.GroupLeave? || c.GroupSend?
  {
    match c
    case GroupCreate(group) => "create" + [BAR] + group
    case GroupJoin(group) => "join" + [BAR] + group
    case GroupLeave(group) => "leave" + [BAR] + group
    case GroupSend(group, text) => "send" + [BAR] + (group + [BAR] + text)
  }

  lemma GroupNamed(c: Command, cmd: string)
    requires WellFormed(c)
    requires (c.GroupCreate? && cmd == "create") || (c.GroupJoin? && cmd == "join") || (c.GroupLeave? && cmd == "leave")
    ensures GroupOf(["group", cmd, c.group]) == Parsed(c)
  {
    TrimSpaceIsTrimmed(cmd);
    TrimSpaceIsTrimmed(c.group);
  }

  lemma GroupSent(c: Command)
    requires WellFormed(c) && c.GroupSend?
    ensures GroupOf(["group", "send", c.group, c.text]) == Parsed(c)
  {
    TrimSpaceIsTrimmed("send");
    TrimSpaceIsTrimmed(c.group);
    TrimSpaceIsTrimmed(c.text);
  }

  lemma GroupRoundTrip(c: Command)
    requires WellFormed(c) && (c.GroupCreate? || c.GroupJoin? || c.GroupLeave? || c.GroupSend?)
    ensures GroupOf(SplitN("group" + [BAR] + GroupRest(c), BAR, 4)) == Parsed(c)
  {
    match c
    case GroupCreate(group) =>
      SplitN3("group", BAR, "create", group, 4);
      GroupNamed(c, "create");
    case GroupJoin(group) =>
      SplitN3("group", BAR, "join", group, 4);
      GroupNamed(c, "join");
    case GroupLeave(group) =>
      SplitN3("group", BAR, "leave", group, 4);
      GroupNamed(c, "leave");
    case GroupSend(group, text) =>
      SplitN4("group", BAR, "send", group, text);
      GroupSent(c);
  }

  lemma GroupLine(c: Command)
    requires WellFormed(c) && (c.GroupCreate? || c.GroupJoin? || c.GroupLeave? || c.GroupSend?)
    requires TrimSpace(Printed(c)) == Printed(c)
    ensures ParseAfterLogin(Printed(c)) == Parsed(c)
  {
    assert Printed(c) == "group" + [BAR] + GroupRest(c);
    LowerGroup(GroupRest(c));
    GroupRoundTrip(c);
  }

  lemma ToLine(c: Command)
    requires WellFormed(c) && c.To? && TrimSpace(Printed(c)) == Printed(c)
    ensures ParseAfterLogin(Printed(c)) == Parsed(c)
  {
    LowerTo(c.target + [BAR] + c.text);
    ToRoundTrip(c.target, c.text);
  }

  lemma RenameLine(c: Command)
    requires WellFormed(c) && c.Rename? && TrimSpace(Printed(c)) == Printed(c)
    ensures ParseAfterLogin(Printed(c)) == Parsed(c)
  {
    LowerRename(c.name);
    RenameRoundTrip(c.name);
  }

  lemma {:induction false} LineRoundTrip(c: Command)
    requires WellFormed(c)
    ensures Parse(AfterLogin(c), Printed(c)) == Parsed(c)
  {
    PrintedIsTrimmed(c);
    TrimSpaceIsTrimmed(Printed(c));
    match c
    case Login(_, _) => LoginRoundTrip(c);
    case Register(_, _) => RegisterRoundTrip(c);
    case Who => assert Lower("who") == "who";
    case Rename(_) => RenameLine(c);
    case To(_, _) => ToLine(c);
    case GroupCreate(_) => GroupLine(c);
    case GroupJoin(_) => GroupLine(c);
    case GroupLeave(_) => GroupLine(c);
    case GroupSend(_, _) => GroupLine(c);
    case Say(_) =>
  }

  /** One line: it reaches the parser and is understood as the command printed iff that is well formed. */
  lemma {:induction false} RoundTripIff(c: Command)
    ensures TrimSpace(Printed(c)) != [] && Parse(AfterLogin(c), TrimSpace(Printed(c))) == Parsed(c)
       <==> WellFormed(c)
  {
    TrimSpaceIsTrimmed(Printed(c));
    TrimSpaceIsTrimmed(TrimSpace(Printed(c)));
    if WellFormed(c) {
      PrintedIsTrimmed(c);
      LineRoundTrip(c);
    } else if TrimSpace(Printed(c)) != [] {
      ParsedIsWellFormed(AfterLogin(c), TrimSpace(Printed(c)));
    }
  }

  // ----- Commands that are not understood as printed

  /** A public message that happens to be a keyword, in any case, is taken for the command. */
  lemma WhoIsNotSaid(text: string)
    requires Lower(text) == "who"
    ensures Parse(true, TrimSpace(Printed(Say(text)))) == Parsed(Who)
  {
    assert text == [text[0], text[1], text[2]];
    assert LowerChar(text[0]) == 'w' && LowerChar(text[2]) == 'o';
    TrimSpaceIsTrimmed(text);
  }

  lemma SayingWho()
    ensures Lower("who") == "who" && Parse(true, TrimSpace(Printed(Say("who")))) == Parsed(Who)
  {
    assert Lower("who") == "who";
    WhoIsNotSaid("who");
  }

  lemma FourParts(keyword: string, user: string, a: string, b: string)
    requires BAR !in keyword && BAR !in user && BAR !in a
    ensures |Split(keyword + [BAR] + (user + [BAR] + (a + [BAR] + b)), BAR)| >= 4
  {
    SplitFirst(keyword, BAR, user + [BAR] + (a + [BAR] + b));
    SplitFirst(user, BAR, a + [BAR] + b);
    SplitFirst(a, BAR, b);
  }

  lemma LoginLineIsTrimmed(user: string, password: string)
    requires password != [] && Trimmed(password)
    ensures Trimmed("login" + [BAR] + (user + [BAR] + password))
  {
    var line := "login" + [BAR] + (user + [BAR] + password);
    assert line[0] == 'l' && line[|line| - 1] == password[|password| - 1];
  }

  lemma ManyPartsAreRejected(msg: string)
    requires "login|" <= msg && |Split(msg, BAR)| >= 4
    ensures ParseBeforeLogin(msg) == Rejected
  {
  }

  /** A login whose password holds a bar is rejected. */
  lemma BarInPassword(user: string, a: string, b: string)
    requires IsValidUsername(user) && Trimmed(a + [BAR] + b) && BAR !in a
    ensures Parse(false, TrimSpace(Printed(Login(user, a + [BAR] + b)))) == Rejected
  {
    var password := a + [BAR] + b;
    var line := Printed(Login(user, password));
    ValidNameIsField(user);
    LoginLineIsTrimmed(user, password);
    TrimSpaceIsTrimmed(line);
    LoginKeyword(user + [BAR] + password);
    FourParts("login", user, a, b);
    ManyPartsAreRejected(line);
  }

  // ----- What the server reads, letter by letter

  /** word is keyword, which is in lower case, in any mixture of cases. */
  ghost predicate SameWord(word: string, keyword: string) {
    && |word| == |keyword|
    && forall i :: 0 <= i < |word| ==> word[i] == keyword[i] || word[i] as int == keyword[i] as int - 32
  }

  lemma LowerLetter(c: char, d: char)
    requires 'a' <= d <= 'z'
    ensures LowerChar(c) == d <==> c == d || c as int == d as int - 32
  {
  }

  lemma LowerIsSameWord(word: string, keyword: string)
    requires forall i :: 0 <= i < |keyword| ==> 'a' <= keyword[i] <= 'z'
    ensures Lower(word) == keyword <==> SameWord(word, keyword)
  {
    if |word| == |keyword| {
      forall i | 0 <= i < |word|
        ensures Lower(word)[i] == keyword[i] <==> word[i] == keyword[i] || word[i] as int == keyword[i] as int - 32
      {
        LowerLetter(word[i], keyword[i]);
      }
      assert Lower(word) == keyword <==> forall i :: 0 <= i < |word| ==> Lower(word)[i] == keyword[i];
    }
  }

  /** A message lists the users online iff it is the keyword, in any mixture of cases. */
  lemma WhoIff(msg: string)
    ensures Parse(true, msg) == Parsed(Who) <==> SameWord(TrimSpace(msg), "who")
  {
    LowerIsSameWord(TrimSpace(msg), "who");
    var m := TrimSpace(msg);
    NotWho(SplitN(m, BAR, 2), SplitN(m, BAR, 3), SplitN(m, BAR, 4));
  }

  lemma NotWho(a: seq<string>, b: seq<string>, c: seq<string>)
    ensures RenameOf(a) != Parsed(Who) && ToOf(b) != Parsed(Who) && GroupOf(c) != Parsed(Who)
  {
  }

  lemma LowerKeeps(word: string, keyword: string, rest: string)
    requires forall i :: 0 <= i < |keyword| ==> 'a' <= keyword[i] <= 'z'
    requires SameWord(word, keyword)
    ensures Lower(word + [BAR] + rest) == Lower(keyword + [BAR] + rest)
  {
    LowerIsSameWord(word, keyword);
    LowerIsSameWord(keyword, keyword);
    var a, b := word + [BAR] + rest, keyword + [BAR] + rest;
    forall i | 0 <= i < |a|
      ensures Lower(a)[i] == Lower(b)[i]
    {
      if i < |word| {
        assert Lower(a)[i] == Lower(word)[i] && Lower(b)[i] == Lower(keyword)[i];
      } else {
        assert a[i] == b[i];
      }
    }
  }

  lemma AnyCaseIsTrimmed(word: string, keyword: string, rest: string)
    requires keyword != [] && (forall i :: 0 <= i < |keyword| ==> 'a' <= keyword[i] <= 'z')
    requires SameWord(word, keyword) && Trimmed(keyword + [BAR] + rest)
    ensures Trimmed(word + [BAR] + rest)
  {
    var a, b := word + [BAR] + rest, keyword + [BAR] + rest;
    assert a[0] == word[0] && a[|a| - 1] == b[|b| - 1];
  }

  /** What a message that starts with one of the three keywords is understood as. */
  function Chosen(lower: string, rename: Parsed, to: Parsed, group: Parsed): Parsed {
    if "rename|" <= lower then rename else if "to|" <= lower then to else group
  }

  lemma ParsedAsChosen(m: string)
    requires TrimSpace(m) == m && Lower(m) != "who"
    requires "rename|" <= Lower(m) || "to|" <= Lower(m) || "group|" <= Lower(m)
    ensures ParseAfterLogin(m)
         == Chosen(Lower(m), RenameOf(SplitN(m, BAR, 2)), ToOf(SplitN(m, BAR, 3)), GroupOf(SplitN(m, BAR, 4)))
  {
  }

  /** The keywords of commands may be in any mixture of cases. */
  lemma KeywordAnyCase(c: Command, word: string, keyword: string, rest: string)
    requires keyword in ["rename", "to", "group"] && SameWord(word, keyword)
    requires WellFormed(c) && AfterLogin(c) && !c.Say? && Printed(c) == keyword + [BAR] + rest
    ensures Parse(true, word + [BAR] + rest) == Parsed(c)
  {
    var a, b := word + [BAR] + rest, keyword + [BAR] + rest;
    LetterKeyword(keyword);
    assert TrimSpace(a) == a && TrimSpace(b) == b by {
      PrintedIsTrimmed(c);
      AnyCaseIsTrimmed(word, keyword, rest);
      TrimSpaceIsTrimmed(a);
      TrimSpaceIsTrimmed(b);
    }
    LowerKeeps(word, keyword, rest);
    KeywordStarts(keyword, rest);
    NoBarInWord(word, keyword);
    SameParts(word, keyword, rest);
    ParsedAsChosen(a);
    ParsedAsChosen(b);
    LineRoundTrip(c);
  }

  lemma KeywordStarts(keyword: string, rest: string)
    requires keyword in ["rename", "to", "group"]
    ensures var lower := Lower(keyword + [BAR] + rest);
            lower != "who" && ("rename|" <= lower || "to|" <= lower || "group|" <= lower)
  {
    if keyword == "rename" {
      LowerRename(rest);
    } else if keyword == "to" {
      LowerTo(rest);
    } else {
      assert keyword == "group";
      LowerGroup(rest);
    }
  }

  lemma LetterKeyword(keyword: string)
    requires keyword in ["rename", "to", "group"]
    ensures keyword != [] && BAR !in keyword && forall i :: 0 <= i < |keyword| ==> 'a' <= keyword[i] <= 'z'
  {
    assert keyword == "rename" || keyword == "to" || keyword == "group";
  }

  lemma NoBarInWord(word: string, keyword: string)
    requires SameWord(word, keyword) && forall i :: 0 <= i < |keyword| ==> 'a' <= keyword[i] <= 'z'
    ensures BAR !in word
  {
  }

  lemma FirstPartIsIgnored(x: string, y: string, parts: seq<string>)
    ensures RenameOf([x] + parts) == RenameOf([y] + parts)
    ensures ToOf([x] + parts) == ToOf([y] + parts)
    ensures GroupOf([x] + parts) == GroupOf([y] + parts)
  {
  }

  /** Messages that differ in their first part only are taken apart alike. */
  lemma SameParts(word: string, keyword: string, rest: string)
    requires BAR !in word && BAR !in keyword
    ensures var a, b := word + [BAR] + rest, keyword + [BAR] + rest;
            && RenameOf(SplitN(a, BAR, 2)) == RenameOf(SplitN(b, BAR, 2))
            && ToOf(SplitN(a, BAR, 3)) == ToOf(SplitN(b, BAR, 3))
            && GroupOf(SplitN(a, BAR, 4)) == GroupOf(SplitN(b, BAR, 4))
  {
    forall n: nat | n >= 2
      ensures SplitN(word + [BAR] + rest, BAR, n) == [word] + SplitN(rest, BAR, n - 1)
      ensures SplitN(keyword + [BAR] + rest, BAR, n) == [keyword] + SplitN(rest, BAR, n - 1)
    {
      SplitNFirst(word, BAR, rest, n);
      SplitNFirst(keyword, BAR, rest, n);
    }
    FirstPartIsIgnored(word, keyword, SplitN(rest, BAR, 1));
    FirstPartIsIgnored(word, keyword, SplitN(rest, BAR, 2));
    FirstPartIsIgnored(word, keyword, SplitN(rest, BAR, 3));
  }

  // ----- What the server makes of any message, as far as its bars go

  /** A message starts with a keyword and a bar, whatever the case. */
  lemma StartsWith(msg: string, keyword: string)
    requires forall i :: 0 <= i < |keyword| ==> 'a' <= keyword[i] <= 'z'
    ensures var n := |keyword|;
            keyword + "|" <= Lower(msg) <==> n < |msg| && SameWord(msg[..n], keyword) && msg[n] == '|'
  {
    var n := |keyword|;
    if n < |msg| {
      LowerIsSameWord(msg[..n], keyword);
      assert Lower(msg[..n]) == Lower(msg)[..n];
      assert LowerChar(msg[n]) == '|' <==> msg[n] == '|';
      assert Lower(msg)[..n + 1] == Lower(msg)[..n] + [Lower(msg)[n]];
      assert keyword + "|" <= Lower(msg) <==> Lower(msg)[..n + 1] == keyword + "|";
    }
  }

  lemma KeywordLower(keyword: string, rest: string)
    requires keyword in ["rename", "to", "group"]
    ensures var lower := Lower(keyword + [BAR] + rest);
            && lower != "who" && ("rename|" <= lower <==> keyword == "rename")
            && ("to|" <= lower <==> keyword == "to") && ("group|" <= lower <==> keyword == "group")
  {
    if keyword == "rename" {
      LowerRename(rest);
      assert Lower(keyword + [BAR] + rest)[0] == 'r';
    } else if keyword == "to" {
      LowerTo(rest);
      assert Lower(keyword + [BAR] + rest)[0] == 't';
    } else {
      assert keyword == "group";
      LowerGroup(rest);
    }
  }

  lemma RenameIsSplit(msg: string, name: string)
    requires msg == "rename" + [BAR] + name && Trimmed(msg)
    ensures Parse(true, msg) == RenameOf(SplitN(msg, BAR, 2))
  {
    TrimSpaceIsTrimmed(msg);
    KeywordLower("rename", name);
    ParsedAsChosen(msg);
  }

  lemma RenameOfParts(a: string, name: string)
    ensures RenameOf([a, name]) == if TrimSpace(name) == [] then Rejected else Parsed(Rename(TrimSpace(name)))
  {
  }

  /** rename takes everything after its bar as the name, and is rejected without one. */
  lemma ReadsRename(name: string)
    requires Trimmed("rename|" + name)
    ensures Parse(true, "rename|" + name) ==
            if TrimSpace(name) == [] then Rejected else Parsed(Rename(TrimSpace(name)))
  {
    assert "rename" + [BAR] + name == "rename|" + name;
    RenameIsSplit("rename|" + name, name);
    SplitN2("rename", BAR, name, 2);
    RenameOfParts("rename", name);
  }

  /** to takes what is before the next bar as the target and the rest as the text, and wants both. */
  lemma ReadsTo(target: string, text: string)
    requires '|' !in target && Trimmed("to|" + target + "|" + text)
    ensures Parse(true, "to|" + target + "|" + text) ==
            if TrimSpace(target) == [] || TrimSpace(text) == [] then Rejected
            else Parsed(To(TrimSpace(target), TrimSpace(text)))
  {
    var msg := "to" + [BAR] + (target + [BAR] + text);
    assert msg == "to|" + target + "|" + text;
    TrimSpaceIsTrimmed(msg);
    KeywordLower("to", target + [BAR] + text);
    ParsedAsChosen(msg);
    SplitN3("to", BAR, target, text, 3);
  }

  lemma ReadsToAlone(target: string)
    requires '|' !in target && Trimmed("to|" + target)
    ensures Parse(true, "to|" + target) == Rejected
  {
    var msg := "to" + [BAR] + target;
    assert msg == "to|" + target;
    TrimSpaceIsTrimmed(msg);
    KeywordLower("to", target);
    ParsedAsChosen(msg);
    SplitN2("to", BAR, target, 3);
  }

  /** A group message is taken apart at its first three bars. */
  lemma GroupIsSplit(msg: string, rest: string)
    requires msg == "group" + [BAR] + rest && Trimmed(msg)
    ensures Parse(true, msg) == GroupOf(SplitN(msg, BAR, 4))
  {
    TrimSpaceIsTrimmed(msg);
    KeywordLower("group", rest);
    ParsedAsChosen(msg);
  }

  lemma GroupOfParts(a: string, cmd: string, group: string, text: string)
    ensures GroupOf([a, cmd]) == Rejected
    ensures GroupOf([a, cmd, group]) ==
            if TrimSpace(cmd) == "create" then Parsed(GroupCreate(TrimSpace(group)))
            else if TrimSpace(cmd) == "join" then Parsed(GroupJoin(TrimSpace(group)))
            else if TrimSpace(cmd) == "leave" then Parsed(GroupLeave(TrimSpace(group)))
            else Rejected
    ensures GroupOf([a, cmd, group, text]) ==
            if TrimSpace(cmd) == "send" then Parsed(GroupSend(TrimSpace(group), TrimSpace(text))) else Rejected
  {
  }

  /** The three group commands with one argument. */
  lemma ReadsGroup(cmd: string, group: string)
    requires '|' !in cmd && '|' !in group && Trimmed("group|" + cmd + "|" + group)
    ensures var g := TrimSpace(group);
            Parse(true, "group|" + cmd + "|" + group) ==
            if TrimSpace(cmd) == "create" then Parsed(GroupCreate(g))
            else if TrimSpace(cmd) == "join" then Parsed(GroupJoin(g))
            else if TrimSpace(cmd) == "leave" then Parsed(GroupLeave(g))
            else Rejected
  {
    var msg := "group|" + cmd + "|" + group;
    GroupOnTheWire(cmd, group);
    GroupIsSplit(msg, cmd + [BAR] + group);
    SplitN3("group", BAR, cmd, group, 4);
    GroupOfParts("group", cmd, group, []);
  }

  /** The one with two; the text may hold bars. */
  lemma ReadsGroupSend(cmd: string, group: string, text: string)
    requires '|' !in cmd && '|' !in group && Trimmed("group|" + cmd + "|" + (group + "|" + text))
    ensures Parse(true, "group|" + cmd + "|" + (group + "|" + text)) ==
            if TrimSpace(cmd) == "send" then Parsed(GroupSend(TrimSpace(group), TrimSpace(text))) else Rejected
  {
    var msg := "group|" + cmd + "|" + (group + "|" + text);
    GroupOnTheWire(cmd, group + [BAR] + text);
    GroupIsSplit(msg, cmd + [BAR] + (group + [BAR] + text));
    SplitN4("group", BAR, cmd, group, text);
    GroupOfParts("group", cmd, group, text);
  }

  lemma ReadsGroupAlone(cmd: string)
    requires '|' !in cmd && Trimmed("group|" + cmd)
    ensures Parse(true, "group|" + cmd) == Rejected
  {
    assert "group" + [BAR] + cmd == "group|" + cmd;
    GroupIsSplit("group|" + cmd, cmd);
    SplitN2("group", BAR, cmd, 4);
    GroupOfParts("group", cmd, [], []);
  }

  /** msg is keyword, a bar and more, whatever the case of the keyword. */
  ghost predicate Invokes(msg: string, keyword: string) {
    |keyword| < |msg| && SameWord(msg[..|keyword|], keyword) && msg[|keyword|] == '|'
  }

  /** Everything else is said aloud, as it is. */
  lemma ReadsSay(msg: string)
    requires Trimmed(msg) && !SameWord(msg, "who")
    requires !Invokes(msg, "rename") && !Invokes(msg, "to") && !Invokes(msg, "group")
    ensures Parse(true, msg) == Parsed(Say(msg))
  {
    TrimSpaceIsTrimmed(msg);
    LowerIsSameWord(msg, "who");
    StartsWith(msg, "rename");
    StartsWith(msg, "to");
    StartsWith(msg, "group");
    assert "rename" + "|" == "rename|" && "to" + "|" == "to|" && "group" + "|" == "group|";
  }

  /** The lines themselves, written out. */
  lemma CredentialsOnTheWire(user: string, password: string)
    ensures Printed(Login(user, password)) == "login|" + user + "|" + password
    ensures Printed(Register(user, password)) == "register|" + user + "|" + password
  {
  }

  lemma MessagesOnTheWire(name: string, text: string)
    ensures Printed(Rename(name)) == "rename|" + name
    ensures Printed(To(name, text)) == "to|" + name + "|" + text
    ensures Printed(Who) == "who" && Printed(Say(text)) == text
  {
  }

  lemma GroupsOnTheWire(group: string, text: string)
    ensures Printed(GroupCreate(group)) == "group|" + "create" + "|" + group
    ensures Printed(GroupJoin(group)) == "group|" + "join" + "|" + group
    ensures Printed(GroupLeave(group)) == "group|" + "leave" + "|" + group
    ensures Printed(GroupSend(group, text)) == "group|" + "send" + "|" + (group + "|" + text)
  {
    GroupOnTheWire("create", group);
    GroupOnTheWire("join", group);
    GroupOnTheWire("leave", group);
    GroupOnTheWire("send", group + "|" + text);
  }

  lemma GroupOnTheWire(cmd: string, rest: string)
    ensures "group" + [BAR] + (cmd + [BAR] + rest) == "group|" + cmd + "|" + rest
  {
  }

  /** Letters, digits, the underscore and Chinese characters, two to twenty of them. */
  ghost predicate GoodName(name: string) {
    && 2 <= |name| && |name| <= 20
    && forall i :: 0 <= i < |name| ==>
         var n := name[i] as int;
         48 <= n <= 57 || 65 <= n <= 90 || n == 95 || 97 <= n <= 122 || 0x4E00 <= n <= 0x9FA5
  }

  lemma ValidIffGood(name: string)
    ensures IsValidUsername(name) <==> GoodName(name)
  {
  }

  /** Credentials are taken, with white space trimmed, iff the name is good; otherwise they are rejected. */
  lemma CredentialsIff(login: bool, user: string, password: string)
    requires '|' !in user && '|' !in password
    ensures var u, p := TrimSpace(user), TrimSpace(password);
            Parse(false, (if login then "login|" else "register|") + user + "|" + password) ==
            if !GoodName(u) then Rejected else Parsed(if login then Login(u, p) else Register(u, p))
  {
    var keyword := if login then "login" else "register";
    var msg := keyword + [BAR] + (user + [BAR] + password);
    assert (if login then "login|" else "register|") + user + "|" + password == msg;
    Split3(keyword, BAR, user, password);
    ValidIffGood(TrimSpace(user));
    if login {
      LoginKeyword(user + [BAR] + password);
    } else {
      RegisterKeyword(user + [BAR] + password);
    }
    CredentialsTaken(login, msg, keyword, user, password);
  }

  lemma CredentialsTaken(login: bool, msg: string, keyword: string, user: string, password: string)
    requires if login then "login|" <= msg else "register|" <= msg && !("login|" <= msg)
    requires Split(msg, BAR) == [keyword, user, password]
    ensures Parse(false, msg) == CredentialsOf(login, [keyword, user, password])
  {
  }

  // ----- Streams

  ghost predicate OneLine(c: Command) {
    '\n' !in Printed(c)
  }

  function Lines(cs: seq<Command>): seq<string> {
    if cs == [] then [] else [Printed(cs[0])] + Lines(cs[1..])
  }

  lemma ScanOne(line: string, rest: string)
    requires '\n' !in line
    ensures ScanLines(line + ['\n'] + rest) == [DropCR(line)] + ScanLines(rest)
  {
    var s := line + ['\n'] + rest;
    assert s[|line|] == '\n';
    IndexAfter(line, '\n', rest);
    assert s[..|line|] == line && s[|line| + 1..] == rest;
  }

  /** Cutting the stream into messages gives back the printed lines. */
  lemma {:induction false} StreamLines(cs: seq<Command>)
    requires forall c :: c in cs ==> WellFormed(c) && OneLine(c)
    ensures Messages(ScanLines(Stream(cs))) == Lines(cs)
  {
    if cs != [] {
      var line := Printed(cs[0]);
      assert WellFormed(cs[0]) && OneLine(cs[0]);
      StreamLines(cs[1..]);
      ScanOne(line, Stream(cs[1..]));
      PrintedIsTrimmed(cs[0]);
      TrimSpaceIsTrimmed(line);
      assert DropCR(line) == line;
      assert ([line] + ScanLines(Stream(cs[1..])))[1..] == ScanLines(Stream(cs[1..]));
    }
  }

  /** Login and registration come first, everything else once a login has succeeded. */
  ghost predicate InOrder(auth: bool, cs: seq<Command>, accepted: seq<bool>)
    requires |accepted| == |cs|
    decreases |cs|
  {
    cs == [] ||
    (AfterLogin(cs[0]) == auth && InOrder(auth || (cs[0].Login? && accepted[0]), cs[1..], accepted[1..]))
  }

  lemma {:induction false} LinesCount(cs: seq<Command>)
    ensures |Lines(cs)| == |cs|
  {
    if cs != [] {
      LinesCount(cs[1..]);
    }
  }

  function Understood(cs: seq<Command>): seq<Parsed> {
    if cs == [] then [] else [Parsed(cs[0])] + Understood(cs[1..])
  }

  lemma {:induction false} ServeLines(auth: bool, cs: seq<Command>, accepted: seq<bool>)
    requires |accepted| == |cs| && InOrder(auth, cs, accepted)
    requires forall c :: c in cs ==> WellFormed(c)
    ensures |Lines(cs)| == |cs| && Serve(auth, Lines(cs), accepted) == Understood(cs)
    decreases |cs|
  {
    LinesCount(cs);
    if cs != [] {
      LineRoundTrip(cs[0]);
      assert Lines(cs)[1..] == Lines(cs[1..]);
      ServeLines(auth || (cs[0].Login? && accepted[0]), cs[1..], accepted[1..]);
    }
  }

  /** A whole conversation: the server understands the client's commands, all of them and in order. */
  lemma {:induction false} ConversationRoundTrip(cs: seq<Command>, accepted: seq<bool>)
    requires |accepted| == |cs| && InOrder(false, cs, accepted)
    requires forall c :: c in cs ==> WellFormed(c) && OneLine(c)
    ensures var msgs := Messages(ScanLines(Stream(cs)));
            |msgs| == |cs| && Serve(false, msgs, accepted) == Understood(cs)
  {
    StreamLines(cs);
    ServeLines(false, cs, accepted);
  }

  // ----- Any stream

  ghost predicate NoNewlines(parts: seq<string>) {
    forall i :: 0 <= i < |parts| ==> '\n' !in parts[i]
  }

  /** Lines, each ended by a newline. */
  function Joined(lines: seq<string>): string {
    if lines == [] then [] else lines[0] + ['\n'] + Joined(lines[1..])
  }

  predicate Blank(line: string) {
    forall i :: 0 <= i < |line| ==> IsSpace(line[i])
  }

  /** The lines that hold anything but white space. */
  function NonBlank(lines: seq<string>): seq<string> {
    if lines == [] then [] else (if Blank(lines[0]) then [] else [lines[0]]) + NonBlank(lines[1..])
  }

  lemma TrimDropsCR(line: string)
    ensures TrimSpace(DropCR(line)) == TrimSpace(line)
  {
    var n := |line| - 1;
    if n >= 0 && line[n] == '\r' {
      if forall i :: 0 <= i < n ==> IsSpace(line[i]) {
        AllSpace(line);
        AllSpace(line[..n]);
      } else {
        var i :| 0 <= i < n && !IsSpace(line[i]);
        assert line[..n][i] == line[i];
        TrimLeftKeepsEnd(line[..n], line[n]);
        var t := TrimLeft(line[..n]);
        assert line[..n] + [line[n]] == line;
        assert (t + [line[n]])[..|t|] == t;
      }
    }
  }

  lemma {:induction false} AllSpace(s: string)
    requires forall i :: 0 <= i < |s| ==> IsSpace(s[i])
    ensures TrimLeft(s) == []
  {
    if s != [] {
      AllSpace(s[1..]);
    }
  }

  lemma {:induction false} TrimLeftKeepsEnd(s: string, c: char)
    requires exists i :: 0 <= i < |s| && !IsSpace(s[i])
    ensures TrimLeft(s + [c]) == TrimLeft(s) + [c]
  {
    if IsSpace(s[0]) {
      var i :| 0 <= i < |s| && !IsSpace(s[i]);
      assert s[1..][i - 1] == s[i];
      TrimLeftKeepsEnd(s[1..], c);
      assert (s + [c])[1..] == s[1..] + [c];
    }
  }

  lemma BlankIffNothingLeft(line: string)
    ensures TrimSpace(line) == [] <==> Blank(line)
  {
    var a, b := TrimSpaceCuts(line);
  }

  ghost predicate TrimsOf(msgs: seq<string>, lines: seq<string>) {
    |msgs| == |lines| && forall i :: 0 <= i < |msgs| ==> msgs[i] == TrimSpace(lines[i])
  }

  lemma NextMessage(line: string, scanned: seq<string>)
    ensures Messages([DropCR(line)] + scanned)
         == (if TrimSpace(line) == [] then [] else [TrimSpace(line)]) + Messages(scanned)
  {
    TrimDropsCR(line);
    assert ([DropCR(line)] + scanned)[1..] == scanned;
  }

  lemma NextNonBlank(line: string, lines: seq<string>)
    ensures NonBlank([line] + lines) == (if TrimSpace(line) == [] then [] else [line]) + NonBlank(lines)
  {
    BlankIffNothingLeft(line);
    assert ([line] + lines)[1..] == lines;
  }

  lemma OneMoreMessage(line: string, scanned: seq<string>, lines: seq<string>)
    requires TrimsOf(Messages(scanned), NonBlank(lines))
    ensures TrimsOf(Messages([DropCR(line)] + scanned), NonBlank([line] + lines))
  {
    NextMessage(line, scanned);
    NextNonBlank(line, lines);
    var msgs, raw := Messages(scanned), NonBlank(lines);
    if TrimSpace(line) == [] {
      assert [] + msgs == msgs && [] + raw == raw;
    } else {
      assert Messages([DropCR(line)] + scanned) == [TrimSpace(line)] + msgs;
      assert NonBlank([line] + lines) == [line] + raw;
    }
  }

  /**
   Whatever text arrives, DoMessage gets exactly its lines that are not blank, in order and trimmed; the
   last line need not be ended.
   */
  lemma {:induction false} AnyStream(lines: seq<string>, rest: string)
    requires NoNewlines(lines) && '\n' !in rest
    ensures TrimsOf(Messages(ScanLines(Joined(lines) + rest)), NonBlank(lines + [rest]))
  {
    if lines == [] {
      LastLine(rest);
      assert Joined(lines) + rest == rest && lines + [rest] == [rest];
    } else {
      var more := Joined(lines[1..]) + rest;
      AnyStream(lines[1..], rest);
      OneMoreMessage(lines[0], ScanLines(more), lines[1..] + [rest]);
      assert ScanLines(Joined(lines) + rest) == [DropCR(lines[0])] + ScanLines(more) by {
        ScanOne(lines[0], more);
        assert Joined(lines) + rest == lines[0] + ['\n'] + more;
      }
      assert lines + [rest] == [lines[0]] + (lines[1..] + [rest]);
    }
  }

  lemma LastLine(rest: string)
    requires '\n' !in rest
    ensures TrimsOf(Messages(ScanLines(rest)), NonBlank([rest]))
  {
    NextNonBlank(rest, []);
    NextMessage(rest, []);
    assert [rest] + [] == [rest] && [DropCR(rest)] + [] == [DropCR(rest)];
  }

  // ----- And only such conversations

  ghost predicate OnOneLine(p: Parsed) {
    p.Parsed? ==> OneLine(p.command)
  }

  lemma TrimAddsNothing(parts: seq<string>, i: nat)
    requires NoNewlines(parts) && i < |parts|
    ensures '\n' !in TrimSpace(parts[i])
  {
    TrimSpaceIsTrimmed(parts[i]);
  }

  lemma CredentialsOnOneLine(login: bool, parts: seq<string>)
    requires NoNewlines(parts)
    ensures OnOneLine(CredentialsOf(login, parts))
  {
    if |parts| == 3 {
      TrimAddsNothing(parts, 1);
      TrimAddsNothing(parts, 2);
    }
  }

  lemma RenameOnOneLine(parts: seq<string>)
    requires NoNewlines(parts)
    ensures OnOneLine(RenameOf(parts))
  {
    if |parts| == 2 {
      TrimAddsNothing(parts, 1);
    }
  }

  lemma ToOnOneLine(parts: seq<string>)
    requires NoNewlines(parts)
    ensures OnOneLine(ToOf(parts))
  {
    if |parts| == 3 {
      TrimAddsNothing(parts, 1);
      TrimAddsNothing(parts, 2);
    }
  }

  lemma GroupOnOneLine(parts: seq<string>)
    requires NoNewlines(parts)
    ensures OnOneLine(GroupOf(parts))
  {
    if |parts| >= 3 {
      TrimAddsNothing(parts, 2);
    }
    if |parts| >= 4 {
      TrimAddsNothing(parts, 3);
    }
  }

  lemma AfterLoginOnOneLine(m: string)
    requires '\n' !in m && TrimSpace(m) == m
    ensures OnOneLine(ParseAfterLogin(m))
  {
    var lower := Lower(m);
    if lower == "who" {
      assert OneLine(Who);
    } else if "rename|" <= lower {
      SplitNAddsNothing(m, BAR, 2, '\n');
      RenameOnOneLine(SplitN(m, BAR, 2));
    } else if "to|" <= lower {
      SplitNAddsNothing(m, BAR, 3, '\n');
      ToOnOneLine(SplitN(m, BAR, 3));
    } else if "group|" <= lower {
      SplitNAddsNothing(m, BAR, 4, '\n');
      GroupOnOneLine(SplitN(m, BAR, 4));
    }
  }

  lemma BeforeLoginOnOneLine(msg: string)
    requires '\n' !in msg
    ensures OnOneLine(ParseBeforeLogin(msg))
  {
    SplitAddsNothing(msg, BAR, '\n');
    CredentialsOnOneLine("login|" <= msg, Split(msg, BAR));
  }

  /** What is read from a message without a newline prints without one. */
  lemma ParsedOnOneLine(auth: bool, msg: string)
    requires '\n' !in msg && Trimmed(msg)
    ensures OnOneLine(Parse(auth, msg))
  {
    if auth {
      TrimSpaceIsTrimmed(msg);
      AfterLoginOnOneLine(msg);
    } else {
      BeforeLoginOnOneLine(msg);
    }
  }

  lemma {:induction false} ScannedLines(s: string)
    ensures NoNewlines(ScanLines(s))
    decreases |s|
  {
    if '\n' in s {
      ScannedLines(s[IndexOf(s, '\n') + 1..]);
    }
  }

  lemma {:induction false} MessagesAreLines(lines: seq<string>)
    requires NoNewlines(lines)
    ensures NoNewlines(Messages(lines))
    ensures forall i :: 0 <= i < |Messages(lines)| ==> Messages(lines)[i] != [] && Trimmed(Messages(lines)[i])
  {
    if lines != [] {
      TrimSpaceIsTrimmed(lines[0]);
      MessagesAreLines(lines[1..]);
    }
  }

  lemma {:induction false} ServedCount(auth: bool, msgs: seq<string>, accepted: seq<bool>, cs: seq<Command>)
    requires |accepted| == |msgs|
    ensures |Serve(auth, msgs, accepted)| == |msgs| && |Understood(cs)| == |cs|
    decreases |msgs| + |cs|
  {
    if msgs != [] {
      var p := Parse(auth, msgs[0]);
      ServedCount(auth || (p.Parsed? && p.command.Login? && accepted[0]), msgs[1..], accepted[1..], cs);
    } else if cs != [] {
      ServedCount(auth, msgs, accepted, cs[1..]);
    }
  }

  /** Whatever one-line messages arrive, commands read from them are well formed, one-line and in login order. */
  lemma {:induction false} ServedIsInOrder(auth: bool, msgs: seq<string>, accepted: seq<bool>, cs: seq<Command>)
    requires |accepted| == |msgs| == |cs| && NoNewlines(msgs)
    requires forall i :: 0 <= i < |msgs| ==> msgs[i] != [] && Trimmed(msgs[i])
    requires Serve(auth, msgs, accepted) == Understood(cs)
    ensures InOrder(auth, cs, accepted) && forall c :: c in cs ==> WellFormed(c) && OneLine(c)
    decreases |cs|
  {
    if cs != [] {
      var p := Parse(auth, msgs[0]);
      var auth' := auth || (p.Parsed? && p.command.Login? && accepted[0]);
      assert p == Serve(auth, msgs, accepted)[0] == Parsed(cs[0]);
      TrimSpaceIsTrimmed(msgs[0]);
      ParsedIsWellFormed(auth, msgs[0]);
      ParsedOnOneLine(auth, msgs[0]);
      assert Serve(auth', msgs[1..], accepted[1..]) == Serve(auth, msgs, accepted)[1..]
          == Understood(cs)[1..] == Understood(cs[1..]);
      ServedIsInOrder(auth', msgs[1..], accepted[1..], cs[1..]);
    }
  }

  /**
   On the wire: a conversation is understood as it was sent exactly when every command is well formed and
   on one line, and they come in login order.
   */
  lemma {:induction false} ConversationIff(cs: seq<Command>, accepted: seq<bool>)
    requires |accepted| == |Messages(ScanLines(Stream(cs)))|
    ensures Serve(false, Messages(ScanLines(Stream(cs))), accepted) == Understood(cs) <==>
            && |accepted| == |cs| && InOrder(false, cs, accepted)
            && forall c :: c in cs ==> WellFormed(c) && OneLine(c)
  {
    var lines := ScanLines(Stream(cs));
    ScannedLines(Stream(cs));
    MessagesAreLines(lines);
    ServedCount(false, Messages(lines), accepted, cs);
    if Serve(false, Messages(lines), accepted) == Understood(cs) {
      ServedIsInOrder(false, Messages(lines), accepted, cs);
    } else if |accepted| == |cs| && InOrder(false, cs, accepted)
              && forall c :: c in cs ==> WellFormed(c) && OneLine(c) {
      ConversationRoundTrip(cs, accepted);
    }
  }

  lemma TwoMessages(a: string, b: string)
    requires a != [] && b != [] && Trimmed(a) && Trimmed(b)
    ensures Messages([a, b]) == [a, b]
  {
    TrimSpaceIsTrimmed(a);
    TrimSpaceIsTrimmed(b);
    assert [a, b][1..] == [b] && [b][1..] == [];
    assert Messages([b]) == [b];
  }

  lemma StreamOfOne(c: Command)
    ensures Stream([c]) == Printed(c) + ['\n']
  {
    assert [c][1..] == [];
    assert Stream([]) == [];
  }

  lemma ScanTwo(a: string, b: string)
    requires Trimmed(a) && Trimmed(b) && '\n' !in a && '\n' !in b
    ensures ScanLines(a + ['\n'] + (b + ['\n'])) == [a, b]
  {
    ScanOne(a, b + ['\n']);
    ScanOne(b, []);
    assert b + ['\n'] + [] == b + ['\n'];
    assert DropCR(a) == a && DropCR(b) == b;
  }

  /** A text with a newline in it arrives as two messages. */
  lemma NewlineInText(a: string, b: string)
    requires a != [] && b != [] && Trimmed(a) && Trimmed(b) && '\n' !in a && '\n' !in b
    ensures Messages(ScanLines(Stream([Say(a + ['\n'] + b)]))) == [a, b]
  {
    StreamOfOne(Say(a + ['\n'] + b));
    assert a + ['\n'] + b + ['\n'] == a + ['\n'] + (b + ['\n']);
    ScanTwo(a, b);
    TwoMessages(a, b);
  }
}
