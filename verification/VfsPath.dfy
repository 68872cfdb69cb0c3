/** Path resolution of the VFS server: tokens on a bounded stack. Paths have no NUL character. */
module VfsPath {

  const PATH_MAX := 256
  const DEPTH_MAX := 32

  // ------------------------------------------------------------------ tokens

  function FirstSlash(s: string): (e: nat)
    ensures e <= |s| && '/' !in s[..e] && (e < |s| ==> s[e] == '/')
  {
    if s == "" || s[0] == '/' then 0
    else
      var e := 1 + FirstSlash(s[1..]);
      assert s[..e] == [s[0]] + s[1..][..e - 1];
      e
  }

  /** The non-empty pieces between slashes. */
  function Tokens(s: string): seq<string>
    decreases |s|
  {
    if s == "" then []
    else if s[0] == '/' then Tokens(s[1..])
    else [s[..FirstSlash(s)]] + Tokens(s[FirstSlash(s)..])
  }

  /** A name that can stand in a resolved path. */
  predicate Name(c: string) {
    c != "" && '/' !in c && c != "." && c != ".."
  }

  predicate Names(stack: seq<string>) {
    forall i :: 0 <= i < |stack| ==> Name(stack[i])
  }

  /** A resolved path before it is written out. */
  predicate NormalStack(stack: seq<string>) {
    Names(stack) && |stack| <= DEPTH_MAX
  }

  /** One token: `.` stays, `..` goes up, a name goes down unless the stack is full. */
  function Push(stack: seq<string>, token: string): seq<string> {
    if token == "." then stack
    else if token == ".." then (if |stack| > 0 then stack[..|stack| - 1] else stack)
    else if token != "" && |stack| < DEPTH_MAX then stack + [token]
    else stack
  }

  function Walk(stack: seq<string>, tokens: seq<string>): seq<string>
    decreases |tokens|
  {
    if tokens == [] then stack else Walk(Push(stack, tokens[0]), tokens[1..])
  }

  function Join(stack: seq<string>): (s: string)
    ensures s == "" <==> stack == []
    ensures s != "" ==> s[0] == '/'
  {
    if stack == [] then "" else "/" + stack[0] + Join(stack[1..])
  }

  function Render(stack: seq<string>): (s: string)
    ensures s != "" && s[0] == '/'
  {
    if stack == [] then "/" else Join(stack)
  }

  function Cut(s: string): (r: string)
    ensures |r| < PATH_MAX && r <= s
    ensures |s| < PATH_MAX ==> r == s
  {
    if |s| < PATH_MAX then s else s[..PATH_MAX - 1]
  }

  /** The text that is tokenized. */
  function Full(cwd: string, input: string): (s: string)
    ensures |s| < PATH_MAX
    ensures cwd != "" && cwd[0] == '/' ==> s != "" && s[0] == '/'
  {
    if input != "" && input[0] == '/' then Cut(input) else Cut(cwd + "/" + input)
  }

  function Stack(cwd: string, input: string): seq<string> {
    Walk([], Tokens(Full(cwd, input)))
  }

  function Resolved(cwd: string, input: string): string {
    Render(Stack(cwd, input))
  }

  // ------------------------------------------------------------------ tokens and text

  lemma {:induction false} TokensAreParts(s: string)
    ensures forall t <- Tokens(s) :: t != "" && '/' !in t
    decreases |s|
  {
    if s != "" {
      if s[0] == '/' {
        TokensAreParts(s[1..]);
      } else {
        TokensAreParts(s[FirstSlash(s)..]);
      }
    }
  }

  /** A slash separates: the tokens of `a/b` are those of `a`, then those of `b`. */
  lemma {:induction false} TokensOfPath(a: string, b: string)
    ensures Tokens(a + "/" + b) == Tokens(a) + Tokens(b)
    decreases |a|
  {
    var s := a + "/" + b;
    if a == "" {
      assert s[1..] == b;
    } else if a[0] == '/' {
      assert s[1..] == a[1..] + "/" + b;
      TokensOfPath(a[1..], b);
    } else {
      var e := FirstSlash(a);
      SlashBefore(a, b);
      assert s[..e] == a[..e];
      assert s[e..] == a[e..] + "/" + b;
      TokensOfPath(a[e..], b);
    }
  }

  lemma {:induction false} SlashBefore(a: string, b: string)
    ensures FirstSlash(a + "/" + b) == FirstSlash(a)
    decreases |a|
  {
    if a != "" && a[0] != '/' {
      assert (a + "/" + b)[1..] == a[1..] + "/" + b;
      SlashBefore(a[1..], b);
    }
  }

  lemma {:induction false} FirstSlashOfName(c: string, rest: string)
    requires '/' !in c && (rest == "" || rest[0] == '/')
    ensures FirstSlash(c + rest) == |c|
    decreases |c|
  {
    if c != "" {
      assert (c + rest)[1..] == c[1..] + rest;
      FirstSlashOfName(c[1..], rest);
    } else {
      assert c + rest == rest;
    }
  }

  lemma TokensStep(c: string, rest: string)
    requires c != "" && '/' !in c && (rest == "" || rest[0] == '/')
    ensures Tokens("/" + c + rest) == [c] + Tokens(rest)
  {
    hide FirstSlash;
    var t := c + rest;
    assert ("/" + c + rest)[1..] == t;
    FirstSlashOfName(c, rest);
    assert t[..|c|] == c && t[|c|..] == rest;
    assert t[0] == c[0] && c[0] in c;
  }

  lemma NamesTail(stack: seq<string>)
    requires Names(stack) && stack != []
    ensures Name(stack[0]) && Names(stack[1..])
  {
    forall i | 0 <= i < |stack| - 1
      ensures Name(stack[1..][i])
    {
      assert stack[1..][i] == stack[i + 1];
    }
  }

  lemma NoTokens()
    ensures Tokens("") == [] && Tokens("/") == []
  {
    assert "/"[1..] == "";
  }

  lemma NameIsPart(c: string)
    requires Name(c)
    ensures c != "" && '/' !in c
  {
  }

  /** Writing a path out and splitting it again gives the same names. */
  lemma {:induction false} TokensOfJoin(stack: seq<string>)
    requires Names(stack)
    ensures Tokens(Join(stack)) == stack && Tokens(Render(stack)) == stack
    decreases |stack|
  {
    hide FirstSlash, Tokens, Name;
    if stack == [] {
      NoTokens();
    } else {
      assert Name(stack[0]);
      NameIsPart(stack[0]);
      NamesTail(stack);
      TokensOfJoin(stack[1..]);
      TokensStep(stack[0], Join(stack[1..]));
    }
  }

  // ------------------------------------------------------------------ walking

  lemma {:induction false} WalkIsNormal(stack: seq<string>, tokens: seq<string>)
    requires NormalStack(stack) && forall t <- tokens :: t != "" && '/' !in t
    ensures NormalStack(Walk(stack, tokens))
    decreases |tokens|
  {
    if tokens != [] {
      assert tokens[0] in tokens && forall t <- tokens[1..] :: t in tokens;
      WalkIsNormal(Push(stack, tokens[0]), tokens[1..]);
    }
  }

  lemma {:induction false} WalkTwice(stack: seq<string>, a: seq<string>, b: seq<string>)
    ensures Walk(stack, a + b) == Walk(Walk(stack, a), b)
    decreases |a|
  {
    if a == [] {
      assert a + b == b;
    } else {
      assert (a + b)[1..] == a[1..] + b;
      WalkTwice(Push(stack, a[0]), a[1..], b);
    }
  }

  /** A resolved path walks to itself. */
  lemma {:induction false} WalkNames(stack: seq<string>, names: seq<string>)
    requires Names(names) && |stack| + |names| <= DEPTH_MAX
    ensures Walk(stack, names) == stack + names
    decreases |names|
  {
    if names == [] {
      assert stack + names == stack;
    } else {
      NamesTail(names);
      WalkNames(stack + [names[0]], names[1..]);
      assert stack + [names[0]] + names[1..] == stack + names;
    }
  }

  // ------------------------------------------------------------------ lengths

  function Length(stack: seq<string>): nat {
    if stack == [] then 0 else 1 + |stack[0]| + Length(stack[1..])
  }

  lemma {:induction false} JoinLength(stack: seq<string>)
    ensures |Join(stack)| == Length(stack)
    decreases |stack|
  {
    if stack != [] {
      JoinLength(stack[1..]);
    }
  }

  lemma {:induction false} LengthAppend(a: seq<string>, b: seq<string>)
    ensures Length(a + b) == Length(a) + Length(b)
    decreases |a|
  {
    if a == [] {
      assert a + b == b;
    } else {
      assert (a + b)[1..] == a[1..] + b;
      LengthAppend(a[1..], b);
    }
  }

  /** Walking never writes more than was read. */
  lemma {:induction false} WalkLength(stack: seq<string>, tokens: seq<string>)
    ensures Length(Walk(stack, tokens)) <= Length(stack) + Length(tokens)
    decreases |tokens|
  {
    if tokens != [] {
      var pushed := Push(stack, tokens[0]);
      WalkLength(pushed, tokens[1..]);
      if |stack| > 0 {
        LengthAppend(stack[..|stack| - 1], [stack[|stack| - 1]]);
        assert stack[..|stack| - 1] + [stack[|stack| - 1]] == stack;
      }
      LengthAppend(stack, [tokens[0]]);
      assert Length([tokens[0]]) == 1 + |tokens[0]|;
    }
  }

  /** Every token of a text that starts with a slash has a slash in front of it. */
  lemma {:induction false} TokensLength(s: string)
    ensures Length(Tokens(s)) <= if s != "" && s[0] != '/' then |s| + 1 else |s|
    decreases |s|
  {
    if s != "" {
      if s[0] == '/' {
        TokensLength(s[1..]);
      } else {
        var e := FirstSlash(s);
        TokensLength(s[e..]);
        LengthAppend([s[..e]], Tokens(s[e..]));
        assert Length([s[..e]]) == 1 + e;
      }
    }
  }

  // ------------------------------------------------------------------ resolution

  /** `cwd` is some absolute path, as `vfsd_set_cwd` makes sure. */
  predicate Absolute(path: string) {
    path != "" && path[0] == '/'
  }

  /** A path in normal form: a slash before every name, names only, or just a slash. */
  ghost predicate Normal(path: string) {
    exists stack :: NormalStack(stack) && path == Render(stack)
  }

  lemma StackIsNormal(cwd: string, input: string)
    ensures NormalStack(Stack(cwd, input))
  {
    TokensAreParts(Full(cwd, input));
    WalkIsNormal([], Tokens(Full(cwd, input)));
  }

  /** Resolution always yields a normal form that fits the buffer. */
  lemma ResolvedIsNormal(cwd: string, input: string)
    requires Absolute(cwd)
    ensures Normal(Resolved(cwd, input)) && |Resolved(cwd, input)| < PATH_MAX
  {
    hide Tokens, Walk;
    StackIsNormal(cwd, input);
    TokensLength(Full(cwd, input));
    WalkLength([], Tokens(Full(cwd, input)));
    JoinLength(Stack(cwd, input));
  }

  /** A normal form resolves to itself, whatever the working directory. */
  lemma NormalIsFixed(cwd: string, path: string)
    requires Normal(path) && |path| < PATH_MAX
    ensures Resolved(cwd, path) == path
  {
    hide Tokens, Walk;
    var stack :| NormalStack(stack) && path == Render(stack);
    TokensOfJoin(stack);
    WalkNames([], stack);
    assert [] + stack == stack;
  }

  lemma ResolvedIsIdempotent(cwd: string, cwd': string, input: string)
    requires Absolute(cwd)
    ensures Resolved(cwd', Resolved(cwd, input)) == Resolved(cwd, input)
  {
    ResolvedIsNormal(cwd, input);
    NormalIsFixed(cwd', Resolved(cwd, input));
  }

  lemma WalkPath(full: string, q: string)
    ensures Walk([], Tokens(full + "/" + q)) == Walk(Walk([], Tokens(full)), Tokens(q))
  {
    hide Tokens, Walk;
    TokensOfPath(full, q);
    WalkTwice([], Tokens(full), Tokens(q));
  }

  lemma WalkFromNormal(stack: seq<string>)
    requires NormalStack(stack)
    ensures Walk([], Tokens(Render(stack))) == stack
  {
    hide Tokens, Walk;
    TokensOfJoin(stack);
    WalkNames([], stack);
    assert [] + stack == stack;
  }

  lemma RenderLength(full: string)
    requires Absolute(full)
    ensures |Render(Walk([], Tokens(full)))| <= |full|
  {
    hide Tokens, Walk;
    TokensLength(full);
    WalkLength([], Tokens(full));
    JoinLength(Walk([], Tokens(full)));
  }

  /** The text of an input before it is cut to the buffer. */
  function Text(cwd: string, input: string): (s: string)
    ensures Absolute(cwd) ==> Absolute(s)
    ensures |s| < PATH_MAX ==> Full(cwd, input) == s
  {
    if Absolute(input) then input else cwd + "/" + input
  }

  /** Changing to `p` and resolving `q` there is resolving `p/q`, as long as that text fits the buffer.
      (For an empty `p` the text `p/q` would be absolute.) */
  lemma ResolvedComposes(cwd: string, p: string, q: string)
    requires Absolute(cwd) && p != "" && !Absolute(q)
    requires |Text(cwd, p + "/" + q)| < PATH_MAX
    ensures Resolved(Resolved(cwd, p), q) == Resolved(cwd, p + "/" + q)
  {
    hide Tokens, Walk, Render;
    var full := Text(cwd, p);
    var stack := Stack(cwd, p);
    var base := Resolved(cwd, p);
    assert Text(cwd, p + "/" + q) == full + "/" + q;
    StackIsNormal(cwd, p);
    RenderLength(full);
    WalkPath(full, q);
    WalkPath(base, q);
    WalkFromNormal(stack);
  }

  // ------------------------------------------------------------------ one component more

  /** The names of a resolved path. */
  function Parts(cwd: string, input: string): seq<string> {
    Tokens(Resolved(cwd, input))
  }

  lemma PartsAreStack(cwd: string, input: string)
    ensures Parts(cwd, input) == Stack(cwd, input) && |Parts(cwd, input)| <= 32
  {
    hide Tokens, Walk, Render;
    StackIsNormal(cwd, input);
    TokensOfJoin(Stack(cwd, input));
  }

  /** What the last component of a path does, for a text that fits the buffer. */
  lemma LastComponent(cwd: string, p: string, c: string)
    requires Absolute(cwd) && p != "" && c != "" && '/' !in c && |Text(cwd, p + "/" + c)| < PATH_MAX
    ensures Stack(cwd, p + "/" + c) == Push(Stack(cwd, p), c)
  {
    hide Tokens, Walk;
    assert Text(cwd, p + "/" + c) == Text(cwd, p) + "/" + c;
    WalkPath(Text(cwd, p), c);
    OneToken(c);
    WalkOne(Stack(cwd, p), c);
  }

  lemma OneToken(c: string)
    requires c != "" && '/' !in c
    ensures Tokens(c) == [c]
  {
    hide FirstSlash;
    FirstSlashOfName(c, "");
    assert c + "" == c && c[..|c|] == c && c[|c|..] == "" && c[0] in c;
  }

  lemma WalkOne(stack: seq<string>, c: string)
    ensures Walk(stack, [c]) == Push(stack, c)
  {
    assert [c][1..] == [];
  }

  /** A name goes one level down, unless 32 levels are reached. */
  lemma NameGoesDown(cwd: string, p: string, c: string)
    requires Absolute(cwd) && p != "" && Name(c) && |Text(cwd, p + "/" + c)| < PATH_MAX
    ensures Parts(cwd, p + "/" + c) == Parts(cwd, p) + if |Parts(cwd, p)| < 32 then [c] else []
  {
    hide Tokens, Walk, Stack, Resolved;
    LastComponent(cwd, p, c);
    PartsAreStack(cwd, p);
    PartsAreStack(cwd, p + "/" + c);
  }

  /** Two dots go one level up, and stay at the root. */
  lemma DotsGoUp(cwd: string, p: string)
    requires Absolute(cwd) && p != "" && |Text(cwd, p + "/..")| < PATH_MAX
    ensures var parts := Parts(cwd, p);
            Parts(cwd, p + "/..") == if parts == [] then [] else parts[..|parts| - 1]
  {
    hide Tokens, Walk, Stack, Resolved;
    assert p + "/.." == p + "/" + "..";
    LastComponent(cwd, p, "..");
    PartsAreStack(cwd, p);
    PartsAreStack(cwd, p + "/..");
  }

  /** One dot stays. */
  lemma DotStays(cwd: string, p: string)
    requires Absolute(cwd) && p != "" && |Text(cwd, p + "/.")| < PATH_MAX
    ensures Resolved(cwd, p + "/.") == Resolved(cwd, p)
  {
    hide Tokens, Walk, Stack;
    assert p + "/." == p + "/" + ".";
    LastComponent(cwd, p, ".");
  }

  lemma RootIsItsParent(cwd: string)
    ensures Resolved(cwd, "/") == "/" && Resolved(cwd, "/..") == "/"
  {
    hide Tokens, Walk;
    NoTokens();
    WalkNothing([]);
    assert "/.." == "" + "/" + "..";
    TokensOfPath("", "..");
    OneToken("..");
    assert [] + [".."] == [".."];
    WalkOne([], "..");
  }

  /** Going down to a name and up again leads back iff the name was not one level too deep. */
  lemma UpUndoesDown(cwd: string, p: string, c: string)
    requires Absolute(cwd) && p != "" && Name(c) && |Text(cwd, p + "/" + c + "/..")| < PATH_MAX
    ensures Resolved(cwd, p + "/" + c + "/..") == Resolved(cwd, p) <==> |Parts(cwd, p)| < 32
  {
    hide Tokens, Walk, Stack, Render;
    var q := p + "/" + c;
    assert p + "/" + c + "/.." == q + "/..";
    NameGoesDown(cwd, p, c);
    DotsGoUp(cwd, q);
    assert Parts(cwd, p) + [] == Parts(cwd, p);
    PartsAreStack(cwd, p);
    PartsAreStack(cwd, q + "/..");
  }

  /** A relative path starts at the working directory, an absolute one does not look at it, and what
      does not fit the buffer is cut off. */
  lemma WhereItStarts(cwd: string, cwd': string, input: string)
    requires Absolute(cwd)
    ensures Resolved(cwd, input) == Resolved(cwd', if Absolute(input) then input else cwd + "/" + input)
    ensures Absolute(input) && |input| >= PATH_MAX ==> Resolved(cwd, input) == Resolved(cwd', input[..PATH_MAX - 1])
  {
    hide Tokens, Walk;
  }

  // ------------------------------------------------------------------ the in-place tokenizer

  method SkipSlashes(temp: string, from: nat) returns (cursor: nat)
    requires from <= |temp|
    ensures from <= cursor <= |temp| && (cursor < |temp| ==> temp[cursor] != '/')
    ensures Tokens(temp[cursor..]) == Tokens(temp[from..])
  {
    cursor := from;
    while cursor < |temp| && temp[cursor] == '/'
      invariant from <= cursor <= |temp| && Tokens(temp[cursor..]) == Tokens(temp[from..])
    {
      assert temp[cursor..][1..] == temp[cursor + 1..];
      cursor := cursor + 1;
    }
  }

  /** Where the token at the cursor ends. */
  method FindSlash(temp: string, cursor: nat) returns (end: nat)
    requires cursor <= |temp|
    ensures end == cursor + FirstSlash(temp[cursor..])
  {
    end := cursor;
    while end < |temp| && temp[end] != '/'
      invariant cursor <= end <= |temp|
      invariant FirstSlash(temp[cursor..]) == end - cursor + FirstSlash(temp[end..])
    {
      assert temp[end..][1..] == temp[end + 1..];
      end := end + 1;
    }
  }

  method ResolvePath(cwd: string, input: string) returns (out: string)
    requires Absolute(cwd)
    ensures out == Resolved(cwd, input)
  {
    hide FirstSlash, Walk;
    var temp := Full(cwd, input);
    var stack: seq<string> := [];
    var cursor := SkipSlashes(temp, 0);
    assert temp[0..] == temp;
    while cursor < |temp|
      invariant cursor <= |temp| && (cursor < |temp| ==> temp[cursor] != '/')
      invariant Walk([], Tokens(temp)) == Walk(stack, Tokens(temp[cursor..]))
      decreases |temp| - cursor
    {
      var end := FindSlash(temp, cursor);
      var token := temp[cursor..end];
      NextToken(stack, temp, cursor, end);
      if token == "." {
      } else if token == ".." {
        if |stack| > 0 {
          stack := stack[..|stack| - 1];
        }
      } else if token != "" {
        if |stack| < DEPTH_MAX {
          stack := stack + [token];
        }
      }
      if end == |temp| {
        cursor := end;
        break;
      }
      cursor := SkipSlashes(temp, end);
    }
    assert temp[|temp|..] == "";
    WalkNothing(stack);
    RenderLength(temp);
    out := WriteOut(stack);
  }

  /** Appends piece by piece to a buffer that cuts off what does not fit. */
  method WriteOut(stack: seq<string>) returns (out: string)
    requires |Render(stack)| < PATH_MAX
    ensures out == Render(stack)
  {
    if |stack| == 0 {
      return "/";
    }
    out := "";
    for i := 0 to |stack|
      invariant out == Join(stack[..i])
    {
      JoinPrefix(stack, i);
      out := Cut(out + "/" + stack[i]);
    }
    assert stack[..|stack|] == stack;
  }

  lemma {:induction false} JoinAppend(a: seq<string>, b: seq<string>)
    ensures Join(a + b) == Join(a) + Join(b)
    decreases |a|
  {
    if a == [] {
      assert a + b == b;
    } else {
      assert (a + b)[1..] == a[1..] + b;
      JoinAppend(a[1..], b);
    }
  }

  lemma JoinPrefix(stack: seq<string>, i: nat)
    requires i < |stack|
    ensures Join(stack[..i + 1]) == Join(stack[..i]) + "/" + stack[i]
    ensures |Join(stack[..i + 1])| <= |Join(stack)|
  {
    assert stack[..i + 1] == stack[..i] + [stack[i]];
    JoinAppend(stack[..i], [stack[i]]);
    assert Join([stack[i]]) == "/" + stack[i] + "";
    assert stack == stack[..i + 1] + stack[i + 1..];
    JoinAppend(stack[..i + 1], stack[i + 1..]);
  }

  lemma WalkNothing(stack: seq<string>)
    ensures Walk(stack, Tokens("")) == stack
  {
  }

  lemma NextToken(stack: seq<string>, temp: string, cursor: nat, end: nat)
    requires cursor < |temp| && temp[cursor] != '/' && end == cursor + FirstSlash(temp[cursor..])
    ensures cursor < end
    ensures Walk(stack, Tokens(temp[cursor..])) == Walk(Push(stack, temp[cursor..end]), Tokens(temp[end..]))
  {
    var s := temp[cursor..];
    var e := FirstSlash(s);
    assert s[..e] == temp[cursor..end] && s[e..] == temp[end..];
    var tokens := Tokens(s);
    assert tokens == [s[..e]] + Tokens(s[e..]);
    assert tokens[1..] == Tokens(s[e..]);
  }
}
