/**
 Quoting for the remote shell. `shellArg` and the command lines built with it are printers; the
 parser they answer to is the shell's own, written here after sections 2.2 (Quoting) and 2.3
 (Token Recognition) of the POSIX.1-2017 Shell Command Language.
 */
module Shell {
  import opened Wrappers

  // ---------- the printers ----------

  /** `strings.ReplaceAll` of every single quote by quote, backslash, quote, quote. */
  function Escaped(s: string): string {
    if s == "" then ""
    else (if s[0] == '\'' then "'\\''" else [s[0]]) + Escaped(s[1..])
  }

  function ShellArg(s: string): string { "'" + Escaped(s) + "'" }

  function DockerExec(container: string, cmd: string): string {
    "docker exec " + ShellArg(container) + " sh -c " + ShellArg(cmd)
  }

  function DockerExecCmd(container: string, cmd: string): string {
    "docker exec " + ShellArg(container) + " " + cmd
  }

  /** Quotes a text n times over, as a command inside a command inside a command needs. */
  function Nested(s: string, n: nat): string {
    if n == 0 then s else ShellArg(Nested(s, n - 1))
  }

  // ---------- the shell ----------

  datatype Quoting = Unquoted | SingleQuoted | DoubleQuoted

  /** Between words, or inside one that has `word` so far. */
  datatype Mode = Between | Inside(word: string, quoting: Quoting)

  predicate IsBlank(c: char) { c == ' ' || c == '\t' }

  /** Characters that mean something to the shell when they are not quoted. */
  predicate IsSpecial(c: char) { c in "|&;<>()$`\n*?[#~=%" }

  /**
   The words of a command line, or None if it is not a plain list of words: a quote is left
   open, or an operator, expansion or pattern character is not quoted.
   */
  function Words(s: string, mode: Mode): Option<seq<string>>
    decreases |s|
  {
    if s == "" then
      match mode
      case Between => Some([])
      case Inside(w, Unquoted) => Some([w])
      case Inside(_, _) => None
    else
      match mode
      case Inside(w, SingleQuoted) =>
        Words(s[1..], if s[0] == '\'' then Inside(w, Unquoted) else Inside(w + [s[0]], SingleQuoted))
      case Inside(w, DoubleQuoted) => InDoubleQuotes(s, w)
      case Inside(w, Unquoted) =>
        if IsBlank(s[0]) then Cons(w, Words(s[1..], Between)) else OutsideQuotes(s, w, mode)
      case Between =>
        if IsBlank(s[0]) then Words(s[1..], Between) else OutsideQuotes(s, "", mode)
  }

  function Cons(w: string, rest: Option<seq<string>>): Option<seq<string>> {
    if rest.Some? then Some([w] + rest.value) else None
  }

  function OutsideQuotes(s: string, w: string, mode: Mode): Option<seq<string>>
    requires s != ""
    decreases |s|, 0
  {
    if s[0] == '\'' then Words(s[1..], Inside(w, SingleQuoted))
    else if s[0] == '"' then Words(s[1..], Inside(w, DoubleQuoted))
    else if s[0] == '\\' then
      if |s| == 1 then None
      else if s[1] == '\n' then Words(s[2..], mode)
      else Words(s[2..], Inside(w + [s[1]], Unquoted))
    else if IsSpecial(s[0]) then None
    else Words(s[1..], Inside(w + [s[0]], Unquoted))
  }

  function InDoubleQuotes(s: string, w: string): Option<seq<string>>
    requires s != ""
    decreases |s|, 0
  {
    if s[0] == '"' then Words(s[1..], Inside(w, Unquoted))
    else if s[0] == '$' || s[0] == '`' then None
    else if s[0] == '\\' && |s| > 1 && s[1] in "$`\"\\\n" then
      Words(s[2..], Inside(if s[1] == '\n' then w else w + [s[1]], DoubleQuoted))
    else Words(s[1..], Inside(w + [s[0]], DoubleQuoted))
  }

  function WordsOf(s: string): Option<seq<string>> { Words(s, Between) }

  // ---------- quoting is undone by the shell ----------

  /** Inside single quotes, the escaped text and its closing quote spell exactly the text. */
  lemma {:induction false} EscapedSpells(s: string, rest: string, w: string)
    ensures Words(Escaped(s) + "'" + rest, Inside(w, SingleQuoted)) == Words(rest, Inside(w + s, Unquoted))
  {
    var text := Escaped(s) + "'" + rest;
    if s == "" {
      assert text[1..] == rest;
      assert w + s == w;
    } else {
      var tail := Escaped(s[1..]) + "'" + rest;
      assert w + [s[0]] + s[1..] == w + s;
      EscapedSpells(s[1..], rest, w + [s[0]]);
      if s[0] == '\'' {
        QuoteSpells(tail, w);
        assert text == "'\\''" + tail;
      } else {
        assert text == [s[0]] + tail;
        assert text[1..] == tail;
      }
    }
  }

  /** Closing quote, backslash, quote, opening quote: one quote character inside single quotes. */
  lemma QuoteSpells(tail: string, w: string)
    ensures Words("'\\''" + tail, Inside(w, SingleQuoted)) == Words(tail, Inside(w + ['\''], SingleQuoted))
  {
    var text := "'\\''" + tail;
    var escape, reopened := "\\''" + tail, "'" + tail;
    assert text[1..] == escape && escape[2..] == reopened && reopened[1..] == tail;
    assert Words(escape, Inside(w, Unquoted)) == Words(reopened, Inside(w + ['\''], Unquoted));
  }

  predicate OutsideWith(mode: Mode, w: string) {
    mode == Inside(w, Unquoted) || (mode == Between && w == "")
  }

  /** A quoted argument adds exactly its text to the word it stands in. */
  lemma ArgSpells(s: string, rest: string, mode: Mode, w: string)
    requires OutsideWith(mode, w)
    ensures Words(ShellArg(s) + rest, mode) == Words(rest, Inside(w + s, Unquoted))
  {
    var text := ShellArg(s) + rest;
    assert text[1..] == Escaped(s) + "'" + rest;
    EscapedSpells(s, rest, w);
  }

  predicate IsPlain(c: char) {
    !IsBlank(c) && !IsSpecial(c) && c != '\'' && c != '"' && c != '\\'
  }

  lemma {:induction false} PlainSpells(p: string, rest: string, mode: Mode, w: string)
    requires OutsideWith(mode, w) && p != "" && forall c :: c in p ==> IsPlain(c)
    ensures Words(p + rest, mode) == Words(rest, Inside(w + p, Unquoted))
    decreases p
  {
    assert p[0] in p;
    assert (p + rest)[1..] == p[1..] + rest;
    if p[1..] == "" {
      assert p[1..] + rest == rest;
      assert w + p == w + [p[0]];
    } else {
      PlainSpells(p[1..], rest, Inside(w + [p[0]], Unquoted), w + [p[0]]);
      assert w + [p[0]] + p[1..] == w + p;
    }
  }

  /** A plain word with a blank behind it is the first word. */
  lemma PlainWord(p: string, rest: string)
    requires p != "" && forall c :: c in p ==> IsPlain(c)
    ensures WordsOf(p + " " + rest) == Cons(p, WordsOf(rest))
  {
    assert p + " " + rest == p + (" " + rest);
    PlainSpells(p, " " + rest, Between, "");
    assert "" + p == p && (" " + rest)[1..] == rest;
  }

  /** So is a quoted argument, whatever it holds. */
  lemma ArgWord(s: string, rest: string)
    ensures WordsOf(ShellArg(s) + " " + rest) == Cons(s, WordsOf(rest))
    ensures WordsOf(ShellArg(s)) == Some([s])
  {
    assert ShellArg(s) + " " + rest == ShellArg(s) + (" " + rest);
    ArgSpells(s, " " + rest, Between, "");
    ArgSpells(s, "", Between, "");
    assert "" + s == s && (" " + rest)[1..] == rest && ShellArg(s) + "" == ShellArg(s);
  }

  /** The unquoted tail of `dockerExecCmd` is split as it stands, behind the three quoted words. */
  lemma DockerExecCmdWords(container: string, cmd: string)
    ensures WordsOf(DockerExecCmd(container, cmd)) == Cons("docker", Cons("exec", Cons(container, WordsOf(cmd))))
  {
    assert DockerExecCmd(container, cmd) == "docker" + " " + ("exec" + " " + (ShellArg(container) + " " + cmd));
    ArgWord(container, cmd);
    PlainWord("exec", ShellArg(container) + " " + cmd);
    PlainWord("docker", "exec" + " " + (ShellArg(container) + " " + cmd));
  }

  lemma ShellCommandWords(cmd: string)
    ensures WordsOf("sh -c " + ShellArg(cmd)) == Some(["sh", "-c", cmd])
  {
    assert "sh -c " + ShellArg(cmd) == "sh" + " " + ("-c" + " " + ShellArg(cmd));
    ArgWord(cmd, "");
    PlainWord("-c", ShellArg(cmd));
    PlainWord("sh", "-c" + " " + ShellArg(cmd));
    assert ["sh"] + (["-c"] + [cmd]) == ["sh", "-c", cmd];
  }

  /** For all containers and commands the shell sees exactly these six words. */
  lemma DockerExecWords(container: string, cmd: string)
    ensures WordsOf(DockerExec(container, cmd)) == Some(["docker", "exec", container, "sh", "-c", cmd])
  {
    var sh := "sh -c " + ShellArg(cmd);
    assert DockerExec(container, cmd) == DockerExecCmd(container, sh);
    DockerExecCmdWords(container, sh);
    ShellCommandWords(cmd);
    assert ["docker"] + (["exec"] + ([container] + ["sh", "-c", cmd])) ==
      ["docker", "exec", container, "sh", "-c", cmd];
  }

  /** dockerCat: any path reaches `cat` as one argument. */
  lemma DockerCatWords(container: string, path: string)
    ensures WordsOf(DockerExecCmd(container, "cat " + ShellArg(path))) ==
      Some(["docker", "exec", container, "cat", path])
  {
    DockerExecCmdWords(container, "cat " + ShellArg(path));
    assert "cat " + ShellArg(path) == "cat" + " " + ShellArg(path);
    PlainWord("cat", ShellArg(path));
    ArgWord(path, "");
    assert ["docker"] + (["exec"] + ([container] + (["cat"] + [path]))) == ["docker", "exec", container, "cat", path];
  }

  /** One round of the shell on each level: each must see a single word. */
  function Peeled(s: string, rounds: nat): Option<string>
    decreases rounds
  {
    if rounds == 0 then Some(s)
    else
      match WordsOf(s)
      case Some(words) => if |words| == 1 then Peeled(words[0], rounds - 1) else None
      case None => None
  }

  /** n levels of quoting are undone by n rounds of the shell. */
  lemma {:induction false} NestedQuoting(s: string, n: nat)
    ensures Peeled(Nested(s, n), n) == Some(s)
  {
    if n > 0 {
      ArgWord(Nested(s, n - 1), "");
      NestedQuoting(s, n - 1);
    }
  }

  /** A command run inside a container inside a container: the inner shell gets the inner words. */
  lemma DockerExecTwice(outer: string, inner: string, cmd: string)
    ensures var words := WordsOf(DockerExec(outer, DockerExec(inner, cmd)));
      words.Some? && |words.value| == 6 &&
      WordsOf(words.value[5]) == Some(["docker", "exec", inner, "sh", "-c", cmd])
  {
    DockerExecWords(outer, DockerExec(inner, cmd));
    DockerExecWords(inner, cmd);
  }

  // ---------- a quoted name inside a quoted command ----------

  const LOCK_PATH := "/opt/amnezia/awg/awg0.lock"
  const SYNC_HEAD :=
    "TMPFILE=$(mktemp " + "/tmp/awg0-strip.XXXXXX) && " + "trap \"rm -f $TMPFILE\" EXIT && " +
    "awg-quick strip " + "/opt/amnezia/awg/awg0.conf " + "> $TMPFILE && " + "awg syncconf "
  const SYNC_TAIL := " $TMPFILE"

  /** The script of syncConf: the quoted interface name stands inside a quoted command. */
  function SyncScript(iface: string): string { FlockScript(LOCK_PATH, Spliced(SYNC_HEAD, iface, SYNC_TAIL)) }

  function FlockScript(lock: string, command: string): string {
    "flock -w 10 " + ShellArg(lock) + " sh -c " + command
  }

  function Spliced(head: string, name: string, tail: string): string {
    "'" + head + ShellArg(name) + tail + "'"
  }

  lemma {:induction false} NothingToEscape(s: string)
    requires '\'' !in s
    ensures Escaped(s) == s
  {
    if s != "" { NothingToEscape(s[1..]); }
  }

  lemma SplicedIsPieces(head: string, name: string, tail: string)
    requires '\'' !in head && '\'' !in name && '\'' !in tail
    ensures Spliced(head, name, tail) == ShellArg(head) + (name + ShellArg(tail))
  {
    NothingToEscape(head);
    NothingToEscape(name);
    NothingToEscape(tail);
  }

  /** The inner quotes close the outer ones: the name stands outside of all quotes. */
  lemma NameIsUnquoted(head: string, name: string, tail: string)
    requires '\'' !in head && '\'' !in name && '\'' !in tail
    ensures WordsOf(Spliced(head, name, tail)) == Words(name + ShellArg(tail), Inside(head, Unquoted))
  {
    SplicedIsPieces(head, name, tail);
    ArgSpells(head, name + ShellArg(tail), Between, "");
    assert "" + head == head;
  }

  predicate IsQuoting(c: char) { c == '\'' || c == '"' || c == '\\' }

  /** Outside of quotes, a character the shell knows ends the word early or makes it no plain word. */
  lemma {:induction false} NameIsCut(name: string, rest: string, w: string)
    requires (forall c :: c in name ==> !IsQuoting(c)) && exists c :: c in name && !IsPlain(c)
    ensures var r := Words(name + rest, Inside(w, Unquoted));
      r.Some? ==> r.value != [] && |r.value[0]| < |w| + |name|
    decreases name
  {
    var text := name + rest;
    assert text[0] == name[0] && text[1..] == name[1..] + rest && name[0] in name;
    if IsPlain(name[0]) {
      assert name == [name[0]] + name[1..];
      NameIsCut(name[1..], rest, w + [name[0]]);
    }
  }

  /** A name without quote characters is spelled as it is iff the shell knows none of its characters. */
  lemma NameSpelledIff(head: string, name: string, tail: string)
    requires '\'' !in head && '\'' !in tail && forall c :: c in name ==> !IsQuoting(c)
    ensures WordsOf(Spliced(head, name, tail)) == Some([head + name + tail]) <==> forall c :: c in name ==> IsPlain(c)
  {
    NameIsUnquoted(head, name, tail);
    if forall c :: c in name ==> IsPlain(c) {
      if name == "" {
        assert name + ShellArg(tail) == ShellArg(tail) && head + name == head;
      } else {
        PlainSpells(name, ShellArg(tail), Inside(head, Unquoted), head);
      }
      ArgSpells(tail, "", Inside(head + name, Unquoted), head + name);
      assert ShellArg(tail) + "" == ShellArg(tail);
    } else {
      NameIsCut(name, ShellArg(tail), head);
    }
  }

  lemma FlockWords(lock: string, command: string)
    ensures WordsOf(FlockScript(lock, command)) ==
      Cons("flock", Cons("-w", Cons("10", Cons(lock, Cons("sh", Cons("-c", WordsOf(command)))))))
  {
    var sh := "sh" + " " + ("-c" + " " + command);
    var quoted := ShellArg(lock) + " " + sh;
    assert FlockScript(lock, command) == "flock" + " " + ("-w" + " " + ("10" + " " + quoted));
    PlainWord("-c", command);
    PlainWord("sh", "-c" + " " + command);
    ArgWord(lock, sh);
    PlainWord("10", quoted);
    PlainWord("-w", "10" + " " + quoted);
    PlainWord("flock", "-w" + " " + ("10" + " " + quoted));
  }

  lemma SixBefore(words: Option<seq<string>>, lock: string, w: string)
    ensures Cons("flock", Cons("-w", Cons("10", Cons(lock, Cons("sh", Cons("-c", words)))))) ==
        Some(["flock", "-w", "10", lock, "sh", "-c", w])
      <==> words == Some([w])
  {
    if words.Some? {
      var all := ["flock"] + (["-w"] + (["10"] + ([lock] + (["sh"] + (["-c"] + words.value)))));
      assert all == ["flock", "-w", "10", lock, "sh", "-c"] + words.value;
      assert all[6..] == words.value;
      assert ["flock", "-w", "10", lock, "sh", "-c", w][6..] == [w];
      assert words.value == [w] ==> all == ["flock", "-w", "10", lock, "sh", "-c", w];
    }
  }

  /**
   A script of this form runs the command it was built as, the name in its place, iff no
   character of the name may mean something to the shell.
   */
  lemma FlockWordsIff(lock: string, head: string, name: string, tail: string)
    requires '\'' !in head && '\'' !in tail && forall c :: c in name ==> !IsQuoting(c)
    ensures WordsOf(FlockScript(lock, Spliced(head, name, tail))) ==
        Some(["flock", "-w", "10", lock, "sh", "-c", head + name + tail])
      <==> forall c :: c in name ==> IsPlain(c)
  {
    FlockWords(lock, Spliced(head, name, tail));
    NameSpelledIff(head, name, tail);
    SixBefore(WordsOf(Spliced(head, name, tail)), lock, head + name + tail);
  }

  /** So it is with the hot-reload script and the interface name. */
  lemma SyncScriptWordsIff(iface: string)
    requires forall c :: c in iface ==> !IsQuoting(c)
    ensures WordsOf(SyncScript(iface)) ==
        Some(["flock", "-w", "10", LOCK_PATH, "sh", "-c", SYNC_HEAD + iface + SYNC_TAIL])
      <==> forall c :: c in iface ==> IsPlain(c)
  {
    TextHasNoQuote();
    FlockWordsIff(LOCK_PATH, SYNC_HEAD, iface, SYNC_TAIL);
  }

  /** A blank in the name cuts the command off there. */
  lemma BlankInNameIsCut()
    ensures WordsOf(SyncScript("a b")) !=
      Some(["flock", "-w", "10", LOCK_PATH, "sh", "-c", SYNC_HEAD + "a b" + SYNC_TAIL])
  {
    assert ' ' in "a b";
    SyncScriptWordsIff("a b");
  }

  lemma TextHasNoQuote()
    ensures '\'' !in SYNC_HEAD && '\'' !in SYNC_TAIL
  {
    assert '\'' !in "TMPFILE=$(mktemp " && '\'' !in "/tmp/awg0-strip.XXXXXX) && ";
    assert '\'' !in "trap \"rm -f $TMPFILE\" EXIT && " && '\'' !in "awg-quick strip ";
    assert '\'' !in "/opt/amnezia/awg/awg0.conf " && '\'' !in "> $TMPFILE && " && '\'' !in "awg syncconf ";
  }
}
