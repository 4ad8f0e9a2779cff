/**
 * The helpers of lib/helpers/Util.js: turning a directory listing into file
 * paths, and rendering a response template by replacing each `#{name}#`
 * placeholder with the value the data record holds for `name`.
 *
 * Rendering is split the way a global `replace` works: `Parse` finds the
 * matches of `#{(.*?)}#` from left to right, and `Fill` replaces each of them
 * with the value of its name, failing on the first name without a truthy value.
 */
module Util {
  import opened Wrappers
  import opened JsValue

  // ---------------------------------------------------------------------------
  // Directory listing
  // ---------------------------------------------------------------------------

  /** The path of entry `name` of directory `dir`, as the template `${path}/${file}` writes it. */
  function JoinPath(dir: string, name: string): string
  {
    dir + "/" + name
  }

  /**
   * readDirectory: `listing` is what reading the directory gives (`None` when
   * it cannot be read, in which case the source logs the error and returns
   * `undefined`); the result holds one path per entry, in listing order.
   */
  method ReadDirectory(path: string, listing: Option<seq<string>>) returns (result: Option<seq<string>>)
    ensures result.Some? <==> listing.Some?
    ensures listing.Some? ==> |result.value| == |listing.value|
    ensures listing.Some? ==>
      forall i :: 0 <= i < |listing.value| ==> result.value[i] == JoinPath(path, listing.value[i])
  {
    if listing.None? {
      return None;
    }
    var files := listing.value;
    var paths: seq<string> := [];
    for i := 0 to |files|
      invariant |paths| == i
      invariant forall k :: 0 <= k < i ==> paths[k] == JoinPath(path, files[k])
    {
      paths := paths + [JoinPath(path, files[i])];
    }
    return Some(paths);
  }

  // ---------------------------------------------------------------------------
  // Placeholder syntax
  // ---------------------------------------------------------------------------

  /** The characters that `.` in a JavaScript regular expression does not match. */
  predicate IsLineTerminator(c: char)
  {
    c == '\n' || c == '\r' || c == '\U{2028}' || c == '\U{2029}'
  }

  /** `#{` starts at position `i` of `t`. */
  predicate OpensAt(t: string, i: int)
  {
    0 <= i && i + 1 < |t| && t[i] == '#' && t[i + 1] == '{'
  }

  /** `}#` starts at position `k` of `t`. */
  predicate ClosesAt(t: string, k: int)
  {
    0 <= k && k + 1 < |t| && t[k] == '}' && t[k + 1] == '#'
  }

  /** A name starting at `j` may end at `k`: `}#` follows and `t[j..k]` has no line terminator. */
  predicate IsClose(t: string, j: nat, k: nat)
  {
    j <= k && ClosesAt(t, k) && forall m :: j <= m < k ==> !IsLineTerminator(t[m])
  }

  /** `#{(.*?)}#` can match `t[i..k + 2]`. */
  predicate SlotSpan(t: string, i: nat, k: nat)
  {
    OpensAt(t, i) && IsClose(t, i + 2, k)
  }

  /** The template contains at least one `#{…}#` occurrence. */
  ghost predicate HasPlaceholder(t: string)
  {
    exists i, k :: SlotSpan(t, i, k)
  }

  /** The pattern matches at the very start of `t`. */
  ghost predicate StartsSlot(t: string)
  {
    exists k :: SlotSpan(t, 0, k)
  }

  /** A name the non-greedy `(.*?)` can capture: no line terminator, and no `}#` inside it. */
  predicate NameOk(n: string)
  {
    (forall m :: 0 <= m < |n| ==> !IsLineTerminator(n[m])) &&
    (forall m :: 0 <= m < |n| ==> !ClosesAt(n, m))
  }

  /**
   * The shortest name starting at `j`: the first position of `}#` at or after
   * `j`, provided no line terminator comes before it.
   */
  function FindClose(t: string, j: nat): (r: Option<nat>)
    decreases |t| - j
    ensures r.Some? ==> IsClose(t, j, r.value)
    ensures r.Some? ==> forall k :: j <= k < r.value ==> !IsClose(t, j, k)
    ensures r.None? ==> forall k :: !IsClose(t, j, k)
  {
    if j + 1 >= |t| then None
    else if ClosesAt(t, j) then Some(j)
    else if IsLineTerminator(t[j]) then None
    else
      var r := FindClose(t, j + 1);
      assert forall k :: IsClose(t, j, k) ==> k == j || IsClose(t, j + 1, k);
      r
  }

  // ---------------------------------------------------------------------------
  // Scanning: a template as a sequence of literal characters and placeholders
  // ---------------------------------------------------------------------------

  datatype Piece = Lit(c: char) | Slot(name: string)

  /** The template text a piece stands for. */
  function PieceText(p: Piece): string
  {
    match p
    case Lit(c) => [c]
    case Slot(n) => "#{" + n + "}#"
  }

  function Unparse(ps: seq<Piece>): string
  {
    if ps == [] then [] else PieceText(ps[0]) + Unparse(ps[1..])
  }

  /**
   * The matches of the global regular expression `#{(.*?)}#`, left to right:
   * a match is taken wherever one starts, and scanning resumes after its `}#`.
   */
  function Parse(t: string): seq<Piece>
    decreases |t|
  {
    if t == [] then []
    else
      var close := if OpensAt(t, 0) then FindClose(t, 2) else None;
      if close.Some? then [Slot(t[2..close.value])] + Parse(t[close.value + 2..])
      else [Lit(t[0])] + Parse(t[1..])
  }

  /**
   * The decomposition a left-to-right, non-overlapping scan produces: a literal
   * character never stands where a match could start, and every name is one
   * the non-greedy pattern captures.
   */
  ghost predicate Canonical(ps: seq<Piece>)
  {
    ps == [] ||
    ((match ps[0]
      case Lit(_) => !StartsSlot(Unparse(ps))
      case Slot(n) => NameOk(n)) && Canonical(ps[1..]))
  }

  lemma UnparseCons(p: Piece, ps: seq<Piece>)
    ensures Unparse([p] + ps) == PieceText(p) + Unparse(ps)
  {
  }

  /** Scanning `#{n}#` followed by anything finds the close right after `n`. */
  lemma FindCloseAfterName(n: string, rest: string)
    requires NameOk(n)
    ensures FindClose("#{" + n + "}#" + rest, 2) == Some(|n| + 2)
  {
    var t := "#{" + n + "}#" + rest;
    assert ClosesAt(t, |n| + 2);
    forall m | 2 <= m < |n| + 2
      ensures !IsLineTerminator(t[m])
    {
      assert t[m] == n[m - 2];
    }
    assert IsClose(t, 2, |n| + 2);
    forall k | 2 <= k < |n| + 2
      ensures !IsClose(t, 2, k)
    {
      if k + 1 < |n| + 2 {
        assert t[k] == n[k - 2] && t[k + 1] == n[k - 1];
        assert !ClosesAt(n, k - 2);
      } else {
        assert t[k + 1] == '}';
      }
    }
  }

  /** A match at the start of `t` splits it into `#{`, the name, `}#` and the rest. */
  lemma SplitAtSlot(t: string, k: nat)
    requires SlotSpan(t, 0, k)
    ensures t == "#{" + t[2..k] + "}#" + t[k + 2..]
  {
  }

  /** Scanning preserves the template: the pieces spell it out again, verbatim and in order. */
  lemma {:induction false} ParseUnparse(t: string)
    ensures Unparse(Parse(t)) == t
    decreases |t|
  {
    if t != [] {
      var close := if OpensAt(t, 0) then FindClose(t, 2) else None;
      if close.Some? {
        var k := close.value;
        ParseUnparse(t[k + 2..]);
        UnparseCons(Slot(t[2..k]), Parse(t[k + 2..]));
        SplitAtSlot(t, k);
      } else {
        ParseUnparse(t[1..]);
        UnparseCons(Lit(t[0]), Parse(t[1..]));
        assert t == [t[0]] + t[1..];
      }
    }
  }

  /** Scanning yields the canonical decomposition. */
  lemma {:induction false} ParseCanonical(t: string)
    ensures Canonical(Parse(t))
    decreases |t|
  {
    if t != [] {
      var close := if OpensAt(t, 0) then FindClose(t, 2) else None;
      var ps := Parse(t);
      if close.Some? {
        var k := close.value;
        var n := t[2..k];
        ParseCanonical(t[k + 2..]);
        assert ps[1..] == Parse(t[k + 2..]);
        forall m | 0 <= m < |n|
          ensures !IsLineTerminator(n[m])
        {
          assert n[m] == t[m + 2];
        }
        forall m
          ensures !ClosesAt(n, m)
        {
          if ClosesAt(n, m) {
            assert t[m + 2] == n[m] && t[m + 3] == n[m + 1];
            assert IsClose(t, 2, m + 2);
            assert false;
          }
        }
      } else {
        ParseCanonical(t[1..]);
        assert ps[1..] == Parse(t[1..]);
        ParseUnparse(t);
      }
    }
  }

  /** A character where no match starts is scanned as a literal. */
  lemma ParseLiteralCons(c: char, rest: string)
    requires !StartsSlot([c] + rest)
    ensures Parse([c] + rest) == [Lit(c)] + Parse(rest)
  {
    var t := [c] + rest;
    var close := if OpensAt(t, 0) then FindClose(t, 2) else None;
    if close.Some? {
      assert SlotSpan(t, 0, close.value);
      assert false;
    }
    assert t[1..] == rest;
  }

  /** `#{n}#` with a capturable name is scanned as one placeholder. */
  lemma ParseSlotCons(n: string, rest: string)
    requires NameOk(n)
    ensures Parse("#{" + n + "}#" + rest) == [Slot(n)] + Parse(rest)
  {
    var t := "#{" + n + "}#" + rest;
    FindCloseAfterName(n, rest);
    assert OpensAt(t, 0);
    assert t[2..|n| + 2] == n;
    assert t[|n| + 4..] == rest;
  }

  /** The canonical decomposition is unique: scanning its text gives it back. */
  lemma {:induction false} CanonicalUnique(ps: seq<Piece>)
    requires Canonical(ps)
    ensures Parse(Unparse(ps)) == ps
    decreases |ps|
  {
    if ps != [] {
      CanonicalUnique(ps[1..]);
      UnparseCons(ps[0], ps[1..]);
      assert [ps[0]] + ps[1..] == ps;
      match ps[0]
      case Lit(c) =>
        ParseLiteralCons(c, Unparse(ps[1..]));
      case Slot(n) =>
        ParseSlotCons(n, Unparse(ps[1..]));
    }
  }

  /** A match in the tail of a string is a match one position further in the string. */
  lemma SlotSpanShift(t: string, i: nat, k: nat)
    requires t != []
    ensures SlotSpan(t[1..], i, k) <==> SlotSpan(t, i + 1, k + 1)
  {
  }

  /** No scanned piece is a placeholder exactly when the template has no `#{…}#` occurrence. */
  lemma {:induction false} ParseFindsPlaceholder(t: string)
    ensures HasPlaceholder(t) <==> exists j :: 0 <= j < |Parse(t)| && Parse(t)[j].Slot?
    decreases |t|
  {
    if t != [] {
      var close := if OpensAt(t, 0) then FindClose(t, 2) else None;
      if close.Some? {
        assert SlotSpan(t, 0, close.value);
        assert Parse(t)[0].Slot?;
      } else {
        var tail := t[1..];
        ParseFindsPlaceholder(tail);
        assert Parse(t) == [Lit(t[0])] + Parse(tail);
        if HasPlaceholder(t) {
          var i: nat, k: nat :| SlotSpan(t, i, k);
          if i == 0 {
            assert false;
          }
          SlotSpanShift(t, i - 1, k - 1);
          var j :| 0 <= j < |Parse(tail)| && Parse(tail)[j].Slot?;
          assert Parse(t)[j + 1].Slot?;
        }
        if exists j :: 0 <= j < |Parse(t)| && Parse(t)[j].Slot? {
          var j :| 0 <= j < |Parse(t)| && Parse(t)[j].Slot?;
          assert Parse(tail)[j - 1].Slot?;
          var i: nat, k: nat :| SlotSpan(tail, i, k);
          SlotSpanShift(t, i, k);
        }
      }
    }
  }

  // ---------------------------------------------------------------------------
  // Substitution
  // ---------------------------------------------------------------------------

  /** `data[name]` is truthy; any other value makes the source throw. */
  predicate Present(data: map<string, Value>, name: string)
  {
    name in data && Truthy(data[name])
  }

  /** Piece `i` is a placeholder whose data is missing or falsy. */
  predicate Missing(ps: seq<Piece>, data: map<string, Value>, i: int)
  {
    0 <= i < |ps| && ps[i].Slot? && !Present(data, ps[i].name)
  }

  function Prepend(s: string, r: Result<string, string>): Result<string, string>
  {
    match r
    case Success(v) => Success(s + v)
    case Failure(e) => Failure(e)
  }

  /**
   * The replacement callback applied to every match in order: a placeholder
   * becomes `String(data[name])`, a literal character stays, and the first
   * placeholder without a truthy value aborts the whole call with its name.
   */
  function Fill(ps: seq<Piece>, data: map<string, Value>): Result<string, string>
  {
    if ps == [] then Success([])
    else
      match ps[0]
      case Slot(n) =>
        if !Present(data, n) then Failure(n) else Prepend(ToString(data[n]), Fill(ps[1..], data))
      case Lit(c) => Prepend([c], Fill(ps[1..], data))
  }

  /**
   * Filling fails exactly when some placeholder lacks a truthy value, and the
   * error names the first such placeholder.
   */
  lemma {:induction false} FillFailsOnFirstMissing(ps: seq<Piece>, data: map<string, Value>)
    ensures Fill(ps, data).Failure? <==> exists i :: Missing(ps, data, i)
    ensures Fill(ps, data).Failure? ==>
      exists i :: Missing(ps, data, i) && Fill(ps, data).error == ps[i].name &&
        forall j :: 0 <= j < i ==> !Missing(ps, data, j)
    decreases |ps|
  {
    if ps != [] {
      FillFailsOnFirstMissing(ps[1..], data);
      assert forall i :: 0 <= i < |ps| - 1 ==> ps[1..][i] == ps[i + 1];
      assert forall i :: Missing(ps[1..], data, i) ==> Missing(ps, data, i + 1);
      assert forall i :: Missing(ps, data, i) && i != 0 ==> Missing(ps[1..], data, i - 1);
      if Missing(ps, data, 0) {
        assert Fill(ps, data) == Failure(ps[0].name);
      }
    }
  }

  /** renderText: the template with every placeholder replaced, or the name of the first one lacking data. */
  function Render(t: string, data: map<string, Value>): (r: Result<string, string>)
  {
    Fill(Parse(t), data)
  }

  lemma PrependPrepend(a: string, b: string, r: Result<string, string>)
    ensures Prepend(a, Prepend(b, r)) == Prepend(a + b, r)
  {
    if r.Success? {
      assert a + (b + r.value) == (a + b) + r.value;
    }
  }

  /** Filling is compositional: the pieces of a concatenation are filled one after the other. */
  lemma {:induction false} FillAppend(a: seq<Piece>, b: seq<Piece>, data: map<string, Value>)
    ensures Fill(a + b, data) ==
      (if Fill(a, data).Failure? then Fill(a, data) else Prepend(Fill(a, data).value, Fill(b, data)))
    decreases |a|
  {
    if a == [] {
      assert a + b == b;
      if Fill(b, data).Success? {
        assert [] + Fill(b, data).value == Fill(b, data).value;
      }
    } else {
      assert (a + b)[1..] == a[1..] + b;
      FillAppend(a[1..], b, data);
      var f := Fill(a[1..], data);
      if Fill(a, data).Success? {
        FillFailsOnFirstMissing(a, data);
        assert !Missing(a, data, 0);
        var s := if a[0].Slot? then ToString(data[a[0].name]) else [a[0].c];
        PrependPrepend(s, f.value, Fill(b, data));
      }
    }
  }

  /** A template without placeholders is returned unchanged, whatever the data. */
  lemma RenderNoPlaceholder(t: string, data: map<string, Value>)
    requires !HasPlaceholder(t)
    ensures Render(t, data) == Success(t)
  {
    ParseFindsPlaceholder(t);
    ParseUnparse(t);
    FillLiterals(Parse(t), data);
  }

  lemma {:induction false} FillLiterals(ps: seq<Piece>, data: map<string, Value>)
    requires forall j :: 0 <= j < |ps| ==> ps[j].Lit?
    ensures Fill(ps, data) == Success(Unparse(ps))
    decreases |ps|
  {
    if ps != [] {
      FillLiterals(ps[1..], data);
    }
  }

  /** With no data at all, rendering fails exactly when the template has a placeholder. */
  lemma RenderWithoutData(t: string)
    ensures Render(t, map[]).Failure? <==> HasPlaceholder(t)
  {
    ParseFindsPlaceholder(t);
    FillFailsOnFirstMissing(Parse(t), map[]);
    if HasPlaceholder(t) {
      var j :| 0 <= j < |Parse(t)| && Parse(t)[j].Slot?;
      assert Missing(Parse(t), map[], j);
    } else {
      RenderNoPlaceholder(t, map[]);
    }
  }

  /**
   * A placeholder is replaced by the string form of its value, inserted as it
   * is, and scanning resumes right after the closing `}#`.
   */
  lemma RenderSlotThenRest(n: string, rest: string, data: map<string, Value>)
    requires NameOk(n)
    ensures Render("#{" + n + "}#" + rest, data) ==
      if Present(data, n) then Prepend(ToString(data[n]), Render(rest, data)) else Failure(n)
  {
    ParseSlotCons(n, rest);
    assert ([Slot(n)] + Parse(rest))[1..] == Parse(rest);
  }

  /** A character where no placeholder starts is copied through, and scanning moves on by one. */
  lemma RenderLiteralThenRest(c: char, rest: string, data: map<string, Value>)
    requires !StartsSlot([c] + rest)
    ensures Render([c] + rest, data) == Prepend([c], Render(rest, data))
  {
    ParseLiteralCons(c, rest);
    assert ([Lit(c)] + Parse(rest))[1..] == Parse(rest);
  }

  /**
   * When every placeholder's value is its own placeholder text, rendering
   * gives back the template: each placeholder is replaced by its value as is
   * and all other text is kept in place.
   */
  lemma RenderIdentityData(t: string, data: map<string, Value>)
    requires forall j :: 0 <= j < |Parse(t)| && Parse(t)[j].Slot? ==>
      Parse(t)[j].name in data && data[Parse(t)[j].name] == Str(PieceText(Parse(t)[j]))
    ensures Render(t, data) == Success(t)
  {
    ParseUnparse(t);
    FillIdentity(Parse(t), data);
  }

  lemma {:induction false} FillIdentity(ps: seq<Piece>, data: map<string, Value>)
    requires forall j :: 0 <= j < |ps| && ps[j].Slot? ==>
      ps[j].name in data && data[ps[j].name] == Str(PieceText(ps[j]))
    ensures Fill(ps, data) == Success(Unparse(ps))
    decreases |ps|
  {
    if ps != [] {
      FillIdentity(ps[1..], data);
    }
  }

  /** A run of text without `#` is copied through unchanged, and scanning continues after it. */
  lemma {:induction false} RenderPlainPrefix(p: string, rest: string, data: map<string, Value>)
    requires forall i :: 0 <= i < |p| ==> p[i] != '#'
    ensures Render(p + rest, data) == Prepend(p, Render(rest, data))
    decreases |p|
  {
    if p == [] {
      assert p + rest == rest;
      if Render(rest, data).Success? {
        assert p + Render(rest, data).value == Render(rest, data).value;
      }
    } else {
      var tail := p[1..] + rest;
      RenderPlainPrefix(p[1..], rest, data);
      assert p + rest == [p[0]] + tail;
      assert !OpensAt([p[0]] + tail, 0);
      RenderLiteralThenRest(p[0], tail, data);
      PrependPrepend([p[0]], p[1..], Render(rest, data));
      assert [p[0]] + p[1..] == p;
    }
  }

  /**
   * The example of test/main.test.js, with the template and the expected
   * output written as the concatenation of their pieces: both placeholders are
   * filled and the surrounding text is kept.
   */
  lemma RenderCongratsExample(data: map<string, Value>)
    requires data == map["username" := Str("John Doe"), "level" := Int(1337)]
    ensures Render("Congrats " + ("#{username}#" + (" you are now level " + ("#{level}#" + "!"))), data)
      == Success("Congrats " + ("John Doe" + (" you are now level " + ("1337" + "!"))))
  {
    var rest := " you are now level " + ("#{level}#" + "!");
    assert "#{" + "username" + "}#" == "#{username}#";
    RenderLevelRest(data);
    RenderSlotThenRest("username", rest, data);
    RenderPlainPrefix("Congrats ", "#{username}#" + rest, data);
  }

  lemma RenderLevelRest(data: map<string, Value>)
    requires "level" in data && data["level"] == Int(1337)
    ensures Render(" you are now level " + ("#{level}#" + "!"), data) == Success(" you are now level " + ("1337" + "!"))
  {
    RenderLevelTail(data);
    RenderPlainPrefix(" you are now level ", "#{level}#" + "!", data);
  }

  lemma RenderLevelTail(data: map<string, Value>)
    requires "level" in data && data["level"] == Int(1337)
    ensures Render("#{level}#" + "!", data) == Success("1337" + "!")
  {
    assert "#{" + "level" + "}#" == "#{level}#";
    assert "!" + [] == "!";
    assert Render([], data) == Success([]);
    RenderPlainPrefix("!", [], data);
    RenderSlotThenRest("level", "!", data);
    ToStringExample();
    assert Render("!", data) == Success("!");
    assert ToString(data["level"]) == "1337";
    assert Render("#{level}#" + "!", data) == Prepend("1337", Success("!"));
  }

  /** The second test of test/main.test.js: with no data the first placeholder is reported. */
  lemma RenderCongratsWithoutData()
    ensures Render("Congrats " + ("#{username}#" + (" you are now level " + ("#{level}#" + "!"))), map[])
      == Failure("username")
  {
    var rest := " you are now level " + ("#{level}#" + "!");
    assert "#{" + "username" + "}#" == "#{username}#";
    RenderSlotThenRest("username", rest, map[]);
    RenderPlainPrefix("Congrats ", "#{username}#" + rest, map[]);
  }

  /** A value that itself looks like a placeholder is inserted literally. */
  lemma RenderDoesNotRescan(data: map<string, Value>)
    requires data == map["a" := Str("#{b}#"), "b" := Str("x")]
    ensures Render("<" + ("#{a}#" + ">"), data) == Success("<" + ("#{b}#" + ">"))
  {
    assert "#{" + "a" + "}#" == "#{a}#";
    assert ">" + [] == ">";
    assert Render([], data) == Success([]);
    RenderPlainPrefix(">", [], data);
    RenderSlotThenRest("a", ">", data);
    RenderPlainPrefix("<", "#{a}#" + ">", data);
  }
}
