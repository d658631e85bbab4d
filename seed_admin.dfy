/** The administrator seeding script of scripts/seed-admin.mjs: reading `KEY=value` lines from
    .env.local and .env into the process environment without overwriting what is already set, refusing
    to go on while a required setting is missing, and signing the administrator in, or signing them up
    when the sign-in says the account does not exist. File contents and the identity service's answers
    are parameters. */
module SeedAdmin {
  import opened Wrappers
  import Text

  // ----- reading a .env file -----

  /** One trailing carriage return removed. */
  function DropCR(piece: string): (r: string)
    ensures r == piece || (|piece| > 0 && piece[|piece| - 1] == '\r' && r == piece[..|piece| - 1])
  {
    if |piece| > 0 && piece[|piece| - 1] == '\r' then piece[..|piece| - 1] else piece
  }

  /** `content.split(/\r?\n/)`: split at each line feed, a carriage return just before it going with
      it. */
  function Lines(content: string): (ls: seq<string>)
    ensures |ls| == |Text.Split(content, "\n")|
    ensures forall i :: 0 <= i < |ls| - 1 ==> ls[i] == DropCR(Text.Split(content, "\n")[i])
    ensures ls[|ls| - 1] == Text.Split(content, "\n")[|ls| - 1]
    ensures forall i :: 0 <= i < |ls| ==> Text.Avoids(ls[i], '\n')
  {
    var pieces := Text.Split(content, "\n");
    Text.SplitPiecesFree(content, "\n");
    seq(|pieces|, i requires 0 <= i < |pieces| => LinePiece(pieces[i], i < |pieces| - 1))
  }

  /** A piece of the split, without its carriage return when a line feed followed it. */
  function LinePiece(piece: string, beforeFeed: bool): (r: string)
    requires !Text.Contains(piece, "\n")
    ensures r == if beforeFeed then DropCR(piece) else piece
    ensures Text.Avoids(r, '\n')
  {
    forall i | 0 <= i < |piece| ensures piece[i] != '\n' {
      assert !Text.OccursAt(piece, "\n", i);
      assert piece[i..i + 1] == [piece[i]];
    }
    if beforeFeed then DropCR(piece) else piece
  }

  predicate IsQuote(c: char) {
    c == '\'' || c == '"'
  }

  /** `.replace(/^['"]|['"]$/g, "")`: one quote character dropped from the start and one from the end,
      each on its own. */
  function StripQuotes(v: string): (r: string)
    ensures |v| - 2 <= |r| <= |v|
    ensures |v| > 0 && !IsQuote(v[0]) && !IsQuote(v[|v| - 1]) ==> r == v
    ensures |v| >= 2 && IsQuote(v[0]) && !IsQuote(v[|v| - 1]) ==> r == v[1..]
    ensures |v| >= 2 && !IsQuote(v[0]) && IsQuote(v[|v| - 1]) ==> r == v[..|v| - 1]
    ensures |v| >= 2 && IsQuote(v[0]) && IsQuote(v[|v| - 1]) ==> r == v[1..|v| - 1]
    ensures |v| <= 1 && (v == [] || IsQuote(v[0])) ==> r == []
  {
    var front := if |v| > 0 && IsQuote(v[0]) then v[1..] else v;
    if |front| > 0 && IsQuote(front[|front| - 1]) then front[..|front| - 1] else front
  }

  /** A quoted value reads as the text between its quotes, whichever quote characters they are. */
  lemma StripQuotesUnquotes(open: char, s: string, close: char)
    requires IsQuote(open) && IsQuote(close)
    ensures StripQuotes([open] + s + [close]) == s
  {
    var v := [open] + s + [close];
    assert v[1..] == s + [close];
    assert (s + [close])[..|s|] == s;
  }

  predicate HasNoEquals(s: string) {
    forall i :: 0 <= i < |s| ==> s[i] != '='
  }

  /** One line read: nothing for a blank line, a comment or a line without "="; otherwise the trimmed
      text before the first "=" as the key, and the trimmed, unquoted rest as the value. */
  function ParseLine(line: string): (r: Option<(string, string)>)
    ensures r.None? <==>
      (Text.Trim(line) == [] || Text.Trim(line)[0] == '#' || HasNoEquals(Text.Trim(line)))
  {
    ParseTrimmed(Text.Trim(line))
  }

  function ParseTrimmed(trimmed: string): (r: Option<(string, string)>)
    ensures r.None? <==> (trimmed == [] || trimmed[0] == '#' || HasNoEquals(trimmed))
  {
    if trimmed == [] || trimmed[0] == '#' then None
    else
      match Text.IndexOf(trimmed, "=")
      case None =>
        NoEqualsFound(trimmed);
        None
      case Some(eq) =>
        assert trimmed[eq..eq + 1] == "=";
        Some((Text.Trim(trimmed[..eq]), StripQuotes(Text.Trim(trimmed[eq + 1..]))))
  }

  lemma NoEqualsFound(s: string)
    requires Text.IndexOf(s, "=").None?
    ensures HasNoEquals(s)
  {
    forall i | 0 <= i < |s| ensures s[i] != '=' {
      assert !Text.OccursAt(s, "=", i);
      assert s[i..i + 1] == [s[i]];
    }
  }

  /** The split is at the first "=": later ones stay in the value. */
  lemma ParseLineAt(line: string, a: string, b: string)
    requires Text.Trim(line) == a + "=" + b && HasNoEquals(a) && (a == [] || a[0] != '#')
    ensures ParseLine(line) == Some((Text.Trim(a), StripQuotes(Text.Trim(b))))
  {
    var trimmed := Text.Trim(line);
    Text.IndexOfAfterPrefix(a, "=", b);
    assert trimmed[..|a|] == a;
    assert trimmed[|a| + 1..] == b;
    if a == [] {
      assert trimmed[0] == '=';
    } else {
      assert trimmed[0] == a[0];
    }
  }

  /** A setting counts as present when it is there and not empty (`!process.env[key]` is false). */
  predicate IsSet(vars: map<string, string>, key: string) {
    key in vars && vars[key] != ""
  }

  /** The environment after one line: its assignment, unless the key is already set. */
  function ApplyLine(vars: map<string, string>, line: string): map<string, string> {
    var parsed := ParseLine(line);
    if parsed.None? || IsSet(vars, parsed.value.0) then vars else vars[parsed.value.0 := parsed.value.1]
  }

  function ApplyLines(vars: map<string, string>, lines: seq<string>): map<string, string> {
    if lines == [] then vars else ApplyLine(ApplyLines(vars, lines[..|lines| - 1]), lines[|lines| - 1])
  }

  /** The environment after the files, in order; an absent file (None) is skipped. */
  function LoadAll(vars: map<string, string>, files: seq<Option<string>>): map<string, string> {
    if files == [] then vars
    else
      var before := LoadAll(vars, files[..|files| - 1]);
      match files[|files| - 1]
      case None => before
      case Some(content) => ApplyLines(before, Lines(content))
  }

  /** One more file: its lines applied over what the earlier files gave, or nothing when it is absent. */
  lemma LoadAllPrefix(vars: map<string, string>, files: seq<Option<string>>, f: nat)
    requires f < |files|
    ensures files[f].None? ==> LoadAll(vars, files[..f + 1]) == LoadAll(vars, files[..f])
    ensures files[f].Some? ==> LoadAll(vars, files[..f + 1]) == ApplyLines(LoadAll(vars, files[..f]), Lines(files[f].value))
  {
    assert files[..f + 1][..f] == files[..f];
  }

  /** A set key keeps its value through any lines. */
  lemma {:induction false} ApplyLinesKeepsSet(vars: map<string, string>, lines: seq<string>, key: string)
    requires IsSet(vars, key)
    ensures IsSet(ApplyLines(vars, lines), key) && ApplyLines(vars, lines)[key] == vars[key]
  {
    if lines != [] {
      ApplyLinesKeepsSet(vars, lines[..|lines| - 1], key);
    }
  }

  /** loadEnv never overwrites a setting that is already present. */
  lemma {:induction false} LoadAllKeepsSet(vars: map<string, string>, files: seq<Option<string>>, key: string)
    requires IsSet(vars, key)
    ensures IsSet(LoadAll(vars, files), key) && LoadAll(vars, files)[key] == vars[key]
  {
    if files != [] {
      LoadAllKeepsSet(vars, files[..|files| - 1], key);
      if files[|files| - 1].Some? {
        ApplyLinesKeepsSet(LoadAll(vars, files[..|files| - 1]), Lines(files[|files| - 1].value), key);
      }
    }
  }

  /** Loading two lists of files is loading the first, then the second. */
  lemma {:induction false} LoadAllAppend(vars: map<string, string>, a: seq<Option<string>>, b: seq<Option<string>>)
    ensures LoadAll(vars, a + b) == LoadAll(LoadAll(vars, a), b)
  {
    if b != [] {
      LoadAllAppend(vars, a, b[..|b| - 1]);
      assert (a + b)[..|a + b| - 1] == a + b[..|b| - 1];
      assert (a + b)[|a + b| - 1] == b[|b| - 1];
    } else {
      assert a + b == a;
    }
  }

  /** .env.local is read before .env, so a setting .env.local provides is the one that stays. */
  lemma EarlierFileWins(vars: map<string, string>, local: Option<string>, env: Option<string>, key: string)
    requires IsSet(LoadAll(vars, [local]), key)
    ensures IsSet(LoadAll(vars, [local, env]), key) && LoadAll(vars, [local, env])[key] == LoadAll(vars, [local])[key]
  {
    LoadAllAppend(vars, [local], [env]);
    assert [local] + [env] == [local, env];
    LoadAllKeepsSet(LoadAll(vars, [local]), [env], key);
  }

  /** The process environment the script reads and writes. */
  class Env {
    var vars: map<string, string>

    constructor(initial: map<string, string>)
      ensures vars == initial
    {
      vars := initial;
    }

    /** loadEnv: every present file, line by line, in order. */
    method LoadEnv(files: seq<Option<string>>)
      modifies this
      ensures vars == LoadAll(old(vars), files)
    {
      ghost var start := vars;
      var f := 0;
      while f < |files|
        invariant 0 <= f <= |files|
        invariant vars == LoadAll(start, files[..f])
      {
        LoadAllPrefix(start, files, f);
        if files[f].Some? {
          LoadFile(files[f].value);
        }
        f := f + 1;
      }
      assert files[..|files|] == files;
    }

    /** The lines of one file, each assignment applied unless its key is already set. */
    method LoadFile(content: string)
      modifies this
      ensures vars == ApplyLines(old(vars), Lines(content))
    {
      var lines := Lines(content);
      var i := 0;
      while i < |lines|
        invariant 0 <= i <= |lines|
        invariant vars == ApplyLines(old(vars), lines[..i])
      {
        assert lines[..i + 1][..i] == lines[..i];
        SetFromLine(lines[i]);
        i := i + 1;
      }
      assert lines[..|lines|] == lines;
    }

    /** One line's assignment, made only when the key is not already set. */
    method SetFromLine(line: string)
      modifies this
      ensures vars == ApplyLine(old(vars), line)
    {
      var parsed := ParseLine(line);
      if parsed.Some? && !IsSet(vars, parsed.value.0) {
        vars := vars[parsed.value.0 := parsed.value.1];
      }
    }
  }

  // ----- required settings -----

  const RequiredKeys: seq<string> := [
    "VITE_FIREBASE_API_KEY",
    "VITE_FIREBASE_AUTH_DOMAIN",
    "VITE_FIREBASE_PROJECT_ID",
    "VITE_FIREBASE_STORAGE_BUCKET",
    "VITE_FIREBASE_MESSAGING_SENDER_ID",
    "VITE_FIREBASE_APP_ID",
    "ADMIN_SEED_EMAIL",
    "ADMIN_SEED_PASSWORD",
    "ADMIN_SEED_NAME"
  ]

  /** The keys that are not set, in the order given. */
  function Missing(vars: map<string, string>, keys: seq<string>): (m: seq<string>)
    ensures |m| <= |keys|
    ensures forall k :: k in m <==> k in keys && !IsSet(vars, k)
  {
    if keys == [] then []
    else
      var init := keys[..|keys| - 1];
      var last := keys[|keys| - 1];
      assert keys == init + [last];
      Missing(vars, init) + (if IsSet(vars, last) then [] else [last])
  }

  /** Missing keys keep the order they are declared in. */
  lemma {:induction false} MissingAppend(vars: map<string, string>, a: seq<string>, b: seq<string>)
    ensures Missing(vars, a + b) == Missing(vars, a) + Missing(vars, b)
  {
    if b != [] {
      MissingAppend(vars, a, b[..|b| - 1]);
      assert (a + b)[..|a + b| - 1] == a + b[..|b| - 1];
      assert (a + b)[|a + b| - 1] == b[|b| - 1];
    } else {
      assert a + b == a;
    }
  }

  /** ensureEnv: fails exactly when a required setting is missing, naming every missing one. */
  function EnsureEnv(vars: map<string, string>): (r: Result<(), string>)
    ensures r.Failure? <==> exists k :: k in RequiredKeys && !IsSet(vars, k)
    ensures r.Failure? ==> r.error == "Missing environment variables: " + Text.Join(Missing(vars, RequiredKeys), ", ")
  {
    var missing := Missing(vars, RequiredKeys);
    if |missing| > 0 then
      assert missing[0] in missing;
      Failure("Missing environment variables: " + Text.Join(missing, ", "))
    else
      Success(())
  }

  // ----- the administrator account -----

  /** What the identity service answered: the account's id and token, or its error message. */
  datatype AuthAnswer = Signed(localId: string, idToken: string) | Refused(message: string)

  /** The users document the script merges in. */
  datatype AdminDoc = AdminDoc(email: string, displayName: string, role: string, updatedAt: nat, createdAt: Option<nat>)

  datatype SeedOutcome = SeedFailed(message: string) | SeedReady(uid: string, created: bool, doc: AdminDoc)

  /** The two sign-in errors that mean the account should be created. */
  predicate MeansNoAccount(message: string) {
    message == "INVALID_PASSWORD" || message == "EMAIL_NOT_FOUND"
  }

  /** ensureAdminAccount: sign in; on a missing-account error sign up instead, and on any other error
      stop. `signUp` is what a sign-up would answer; `askedSignUp` says whether it was asked. */
  method EnsureAdminAccount(emailSetting: string, displayName: string, signIn: AuthAnswer, signUp: AuthAnswer, now: nat)
    returns (outcome: SeedOutcome, askedSignUp: bool)
    ensures askedSignUp <==> signIn.Refused? && MeansNoAccount(signIn.message)
    ensures signIn.Refused? && !askedSignUp ==> outcome == SeedFailed(signIn.message)
    ensures askedSignUp && signUp.Refused? ==> outcome == SeedFailed(signUp.message)
    ensures signIn.Signed? ==> outcome.SeedReady? && outcome.uid == signIn.localId && !outcome.created
    ensures askedSignUp && signUp.Signed? ==> outcome.SeedReady? && outcome.uid == signUp.localId && outcome.created
    ensures outcome.SeedReady? ==>
      outcome.doc == AdminDoc(Text.ToLower(Text.Trim(emailSetting)), displayName, "admin", now,
                              if outcome.created then Some(now) else None)
  {
    var email := Text.ToLower(Text.Trim(emailSetting));
    var localId := "";
    var created := false;
    askedSignUp := false;
    match signIn {
      case Signed(id, _) =>
        localId := id;
      case Refused(message) =>
        if MeansNoAccount(message) {
          askedSignUp := true;
          match signUp {
            case Signed(id, _) =>
              localId := id;
              created := true;
            case Refused(upMessage) =>
              return SeedFailed(upMessage), askedSignUp;
          }
        } else {
          return SeedFailed(message), askedSignUp;
        }
    }
    var doc := AdminDoc(email, displayName, "admin", now, None);
    if created {
      doc := doc.(createdAt := Some(now));
    }
    outcome := SeedReady(localId, created, doc);
  }
}
