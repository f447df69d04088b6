/**
 * The `.env` loader: the file's non-empty lines are read one by one; comment lines and
 * lines without '=' set nothing, any other line sets its trimmed key to its trimmed,
 * unquoted value, and a later line overwrites an earlier one. `$_ENV`, `$_SERVER` and
 * putenv() receive the same writes and are modelled as one map.
 */
module Environment {
  import opened Wrappers
  import opened PhpString

  /** A line's terminator as file() strips it: the '\n' (already split off) and a '\r' before it. */
  function StripCarriageReturn(s: string): (r: string)
    ensures r <= s && |r| >= |s| - 1
    ensures |s| > 0 && s[|s| - 1] == '\r' ==> r == s[..|s| - 1]
  {
    if |s| > 0 && s[|s| - 1] == '\r' then s[..|s| - 1] else s
  }

  /** The lines that are not empty once their terminator is stripped, in order. */
  function NonEmptyLines(pieces: seq<string>): (r: seq<string>)
    ensures |r| <= |pieces|
    ensures forall k :: 0 <= k < |r| ==> r[k] != ""
    decreases |pieces|
  {
    if pieces == [] then []
    else
      var line := StripCarriageReturn(pieces[0]);
      (if line == "" then [] else [line]) + NonEmptyLines(pieces[1..])
  }

  /** file($path, FILE_IGNORE_NEW_LINES | FILE_SKIP_EMPTY_LINES). */
  function Lines(text: string): (r: seq<string>)
    ensures forall k :: 0 <= k < |r| ==> r[k] != ""
  {
    NonEmptyLines(Split(text, '\n'))
  }

  /** What one line does to the environment. */
  datatype LineEffect = Ignore | Set(key: string, value: string)

  /** One pair of quotes around the whole value, double or single, is removed. */
  function Unquote(v: string): (r: string)
    ensures |v| >= 2 && (v[0] == v[|v| - 1] == '"' || v[0] == v[|v| - 1] == '\'') ==> r == v[1..|v| - 1]
    ensures |v| == 1 && (v == "\"" || v == "'") ==> r == ""
    ensures !(|v| >= 1 && (v[0] == v[|v| - 1] == '"' || v[0] == v[|v| - 1] == '\'')) ==> r == v
  {
    if |v| >= 1 && ((v[0] == '"' && v[|v| - 1] == '"') || (v[0] == '\'' && v[|v| - 1] == '\'')) then
      if |v| >= 2 then v[1..|v| - 1] else ""
    else v
  }

  /**
   * One line: skipped when its trimmed form starts with '#', and when it has no '=';
   * otherwise split at the first '=' into a trimmed key and a trimmed, unquoted value.
   */
  function ParseLine(line: string): (r: LineEffect)
    ensures StartsWith(Trim(line), "#") ==> r == Ignore
    ensures '=' !in line ==> r == Ignore
  {
    if StartsWith(Trim(line), "#") then Ignore
    else
      match CharIndex(line, '=')
      case None => Ignore
      case Some(i) => Set(Trim(line[..i]), Unquote(Trim(line[i + 1..])))
  }

  /** What each line does, in order. */
  function Effects(lines: seq<string>): (r: seq<LineEffect>)
    ensures |r| == |lines| && forall k :: 0 <= k < |lines| ==> r[k] == ParseLine(lines[k])
  {
    seq(|lines|, k requires 0 <= k < |lines| => ParseLine(lines[k]))
  }

  /** The environment after the given effects, in order. */
  function Apply(env: map<string, string>, es: seq<LineEffect>): map<string, string>
    decreases |es|
  {
    if es == [] then env
    else
      var before := Apply(env, es[..|es| - 1]);
      match es[|es| - 1]
      case Ignore => before
      case Set(k, v) => before[k := v]
  }

  /** The keys after the effects: those of `env` and every key a line sets, and no others. */
  lemma {:induction false} ApplyKeys(env: map<string, string>, es: seq<LineEffect>)
    ensures Apply(env, es).Keys == env.Keys + set i | 0 <= i < |es| && es[i].Set? :: es[i].key
    decreases |es|
  {
    if es != [] {
      var n := |es| - 1;
      ApplyKeys(env, es[..n]);
      var before := set i | 0 <= i < n && es[..n][i].Set? :: es[..n][i].key;
      var after := set i | 0 <= i < |es| && es[i].Set? :: es[i].key;
      assert after == before + (if es[n].Set? then {es[n].key} else {}) by {
        forall k | k in after ensures k in before + (if es[n].Set? then {es[n].key} else {}) {
          var i :| 0 <= i < |es| && es[i].Set? && es[i].key == k;
          if i < n {
            assert es[..n][i] == es[i];
          }
        }
        forall k | k in before ensures k in after {
          var i :| 0 <= i < n && es[..n][i].Set? && es[..n][i].key == k;
          assert es[i] == es[..n][i];
        }
      }
    }
  }

  /**
   * What load ends with: the environment after the lines, a missing file, or the
   * ValueError putenv() throws for a line whose key trims to "" (PHP 8 refuses an
   * assignment starting with '='); the lines before that one have already been written.
   */
  datatype LoadResult =
    | Loaded(env: map<string, string>)
    | Missing(message: string)
    | Aborted(env: map<string, string>, message: string)

  const PutenvSyntaxError := "putenv(): Argument #1 ($assignment) must have a valid syntax"

  /** The effect would call putenv() with "=value". */
  predicate RejectedByPutenv(e: LineEffect) {
    e.Set? && e.key == ""
  }

  /** The position of the first effect putenv() refuses, if any. */
  function FirstRejected(es: seq<LineEffect>): (r: Option<nat>)
    ensures r.Some? ==> r.value < |es| && RejectedByPutenv(es[r.value])
    ensures r.Some? ==> forall k :: 0 <= k < r.value ==> !RejectedByPutenv(es[k])
    ensures r.None? <==> forall k :: 0 <= k < |es| ==> !RejectedByPutenv(es[k])
    decreases |es|
  {
    if es == [] then None
    else if RejectedByPutenv(es[0]) then Some(0)
    else
      var r := FirstRejected(es[1..]);
      if r.None? then None else Some(r.value + 1)
  }

  /** The write at the end of one turn of load's foreach: the line's effect on the environment. */
  method LoadLine(current: map<string, string>, e: LineEffect) returns (next: map<string, string>)
    ensures next == Apply(current, [e])
  {
    next := current;
    if e.Set? {
      next := current[e.key := e.value];
    }
  }

  /** Applying one more effect after a prefix. */
  lemma ApplyStep(env: map<string, string>, es: seq<LineEffect>, i: nat)
    requires i < |es|
    ensures Apply(env, es[..i + 1]) == Apply(Apply(env, es[..i]), [es[i]])
  {
    assert es[..i + 1][..i] == es[..i];
    assert [es[i]][..0] == [];
  }

  /**
   * The foreach of Environment::load: each line's effect, in order, on the environment,
   * up to the first line putenv() refuses. The parse of each line is pure, so the effects
   * are computed first; `stop` is the refused line's position, and `current` the
   * environment before it.
   */
  method ApplyLines(es: seq<LineEffect>, env: map<string, string>)
    returns (current: map<string, string>, stop: Option<nat>)
    ensures stop == FirstRejected(es)
    ensures stop.None? ==> current == Apply(env, es)
    ensures stop.Some? ==> current == Apply(env, es[..stop.value])
  {
    current := env;
    var i := 0;
    while i < |es|
      invariant 0 <= i <= |es|
      invariant current == Apply(env, es[..i])
      invariant forall k :: 0 <= k < i ==> !RejectedByPutenv(es[k])
    {
      if RejectedByPutenv(es[i]) {
        RejectedAt(es, i);
        return current, Some(i);
      }
      ApplyStep(env, es, i);
      current := LoadLine(current, es[i]);
      i := i + 1;
    }
    assert es[..i] == es;
    NoneRejected(es);
    return current, None;
  }

  lemma NoneRejected(es: seq<LineEffect>)
    requires forall k :: 0 <= k < |es| ==> !RejectedByPutenv(es[k])
    ensures FirstRejected(es) == None
  {
  }

  /** The first refused effect is the one after a run of accepted ones. */
  lemma RejectedAt(es: seq<LineEffect>, i: nat)
    requires i < |es| && RejectedByPutenv(es[i])
    requires forall k :: 0 <= k < i ==> !RejectedByPutenv(es[k])
    ensures FirstRejected(es) == Some(i)
  {
    assert FirstRejected(es).Some?;
  }

  /**
   * Environment::load. `contents` is the file's text, None when it does not exist;
   * `env` is the environment before loading.
   */
  method Load(path: string, contents: Option<string>, env: map<string, string>) returns (r: LoadResult)
    ensures contents.None? ==> r == Missing("Archivo .env no encontrado: " + path)
    ensures contents.Some? ==>
              var es := Effects(Lines(contents.value));
              match FirstRejected(es)
              case None => r == Loaded(Apply(env, es))
              case Some(i) => r == Aborted(Apply(env, es[..i]), PutenvSyntaxError)
  {
    if contents.None? {
      return Missing("Archivo .env no encontrado: " + path);
    }
    var lines := Lines(contents.value);
    var current, stop := ApplyLines(Effects(lines), env);
    if stop.Some? {
      return Aborted(current, PutenvSyntaxError);
    }
    return Loaded(current);
  }

  /** A line with an empty key, such as "=x", is one putenv() refuses. */
  lemma EmptyKeyRejected(value: string)
    requires !StartsWith(Trim("=" + value), "#")
    ensures RejectedByPutenv(ParseLine("=" + value))
  {
    assert "" + "=" + value == "=" + value;
    SplitAtFirstEquals("", value);
    assert Trim("") == "";
  }

  /** The effect sets key `k`. */
  predicate Assigns(e: LineEffect, k: string) {
    e.Set? && e.key == k
  }

  /**
   * A later line with the same key overwrites an earlier one: after the lines, a key
   * holds the value of the last line that assigns it.
   */
  lemma {:induction false} LastWriteWins(env: map<string, string>, es: seq<LineEffect>, k: string, j: nat)
    requires j < |es| && Assigns(es[j], k)
    requires forall j' :: j < j' < |es| ==> !Assigns(es[j'], k)
    ensures k in Apply(env, es) && Apply(env, es)[k] == es[j].value
    decreases |es|
  {
    var n := |es| - 1;
    if j < n {
      var pre := es[..n];
      forall j' | j < j' < |pre| ensures !Assigns(pre[j'], k) {
        assert pre[j'] == es[j'];
      }
      assert pre[j] == es[j];
      LastWriteWins(env, pre, k, j);
    }
  }

  /** A key no line assigns keeps what it had, and stays absent if it was absent. */
  lemma {:induction false} UnassignedKept(env: map<string, string>, es: seq<LineEffect>, k: string)
    requires forall j :: 0 <= j < |es| ==> !Assigns(es[j], k)
    ensures k in Apply(env, es) <==> k in env
    ensures k in env ==> Apply(env, es)[k] == env[k]
    decreases |es|
  {
    if es != [] {
      var n := |es| - 1;
      var pre := es[..n];
      forall j | 0 <= j < |pre| ensures !Assigns(pre[j], k) {
        assert pre[j] == es[j];
      }
      UnassignedKept(env, pre, k);
    }
  }

  /** A line whose trimmed form starts with '#' sets nothing, even when it holds '='. */
  lemma CommentIgnored(env: map<string, string>, lines: seq<string>, comment: string)
    requires StartsWith(Trim(comment), "#")
    ensures Apply(env, Effects(lines + [comment])) == Apply(env, Effects(lines))
  {
    var es := Effects(lines + [comment]);
    assert es[..|lines|] == Effects(lines);
  }

  /** The split happens at the first '=', so the value keeps any later '='. */
  lemma SplitAtFirstEquals(key: string, value: string)
    requires '=' !in key && !StartsWith(Trim(key + "=" + value), "#")
    ensures ParseLine(key + "=" + value) == Set(Trim(key), Unquote(Trim(value)))
  {
    var line := key + "=" + value;
    CharIndexAfter(key, '=', value);
    assert line[..|key|] == key;
    assert line[|key| + 1..] == value;
  }

  /** Exactly one outer character is removed on each side, so quotes inside the value stay. */
  lemma QuotesStripped(x: string)
    ensures Unquote("\"" + x + "\"") == x
    ensures Unquote("'" + x + "'") == x
    ensures Unquote("\"\"" + x + "\"\"") == "\"" + x + "\""
  {
    assert ("\"" + x + "\"")[1..|x| + 1] == x;
    assert ("'" + x + "'")[1..|x| + 1] == x;
    assert ("\"\"" + x + "\"\"")[1..|x| + 3] == "\"" + x + "\"";
  }

  /** Mismatched quotes are left alone. */
  lemma MismatchedQuotesKept(x: string)
    ensures Unquote("\"" + x + "'") == "\"" + x + "'"
  {
    var v := "\"" + x + "'";
    assert v[0] == '"' && v[|v| - 1] == '\'';
  }

  /** Lines end at '\n'; a '\r' before it goes with the terminator, and blank lines are skipped. */
  lemma LinesOfText(a: string, b: string)
    requires '\n' !in a && '\n' !in b && a != "" && b != "" && a[|a| - 1] != '\r' && b[|b| - 1] != '\r'
    ensures Lines(a + "\r\n\n" + b + "\n") == [a, b]
  {
    var pieces := [a + "\r", "", b, ""];
    JoinPieces(a, b);
    SplitJoin(pieces, '\n');
    KeptPieces(a, b);
  }

  /** The text is the four pieces joined at '\n'. */
  lemma JoinPieces(a: string, b: string)
    ensures Join([a + "\r", "", b, ""], '\n') == a + "\r\n\n" + b + "\n"
  {
    var pieces := [a + "\r", "", b, ""];
    assert Join(pieces[3..], '\n') == "";
    assert Join(pieces[2..], '\n') == b + "\n";
    assert Join(pieces[1..], '\n') == "\n" + b + "\n";
  }

  /** Of the four pieces, the empty ones are skipped and the '\r' goes with the terminator. */
  lemma KeptPieces(a: string, b: string)
    requires a != "" && b != "" && a[|a| - 1] != '\r' && b[|b| - 1] != '\r'
    ensures NonEmptyLines([a + "\r", "", b, ""]) == [a, b]
  {
    var pieces := [a + "\r", "", b, ""];
    assert StripCarriageReturn(a + "\r") == a;
    assert StripCarriageReturn(b) == b;
    assert NonEmptyLines(pieces[3..]) == [];
    assert NonEmptyLines(pieces[2..]) == [b];
    assert NonEmptyLines(pieces[1..]) == [b];
  }
}
