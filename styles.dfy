/**
 * `svg2geo.py`'s `parse_style`: the text of an SVG `<style>` element read line by line
 * into the global table `STYLES` from class name to style text. A line starting with `.`
 * names the classes the following value lines belong to; every other non-empty line that
 * does not start with `}` is a value, appended to the style of each current class.
 */
module Styles {
  import opened Common
  import opened Text

  /** One class token of a `.` line, without one trailing comma; `key[-1]` fails on an empty token. */
  function Key(tok: string): (r: Result<string>)
    ensures r.Fail? <==> tok == ""
    ensures r.Fail? ==> r.fault == EmptyToken
    ensures r.Ok? ==> tok == r.value + "," || (tok == r.value && tok[|tok| - 1] != ',')
  {
    if tok == "" then Fail(EmptyToken)
    else if tok[|tok| - 1] == ',' then Ok(tok[..|tok| - 1])
    else Ok(tok)
  }

  /** The list comprehension over the tokens: every token as a key, the first failure aborts. */
  function KeysOf(toks: seq<string>): Result<seq<string>>
    decreases |toks|
  {
    if toks == [] then Ok([])
    else if Key(toks[0]).Fail? then Fail(EmptyToken)
    else
      var rest := KeysOf(toks[1..]);
      if rest.Fail? then rest else Ok([Key(toks[0]).value] + rest.value)
  }

  /** The keys of a `.` line: `line.split(' ')[:-1]`, the block's opening `{` left behind. */
  function LineKeys(line: string): Result<seq<string>>
  {
    var toks := SplitOn(line, ' ');
    KeysOf(toks[..|toks| - 1])
  }

  /**
   * The keys read exactly when no token is empty; the k-th key is the k-th token, less a
   * trailing comma if it has one.
   */
  lemma {:induction false} KeysOfShape(toks: seq<string>)
    ensures KeysOf(toks).Ok? <==> forall k :: 0 <= k < |toks| ==> toks[k] != ""
    ensures KeysOf(toks).Fail? ==> KeysOf(toks).fault == EmptyToken
    ensures KeysOf(toks).Ok? ==> |KeysOf(toks).value| == |toks|
    ensures KeysOf(toks).Ok? ==> forall k :: 0 <= k < |toks| ==> Key(toks[k]) == Ok(KeysOf(toks).value[k])
    decreases |toks|
  {
    if toks != [] {
      var rest := toks[1..];
      KeysOfShape(rest);
      forall k | 1 <= k < |toks|
        ensures toks[k] == rest[k - 1]
      {
      }
      if KeysOf(toks).Ok? {
        forall k | 0 <= k < |toks|
          ensures Key(toks[k]) == Ok(KeysOf(toks).value[k])
        {
          if k > 0 {
            assert KeysOf(toks).value[k] == KeysOf(rest).value[k - 1];
          }
        }
      }
    }
  }

  /** The keys `.a,`, `.b` and `{` of the line `.a, .b {`: the classes `.a` and `.b`. */
  lemma KeysExample()
    ensures KeysOf([".a,", ".b"]) == Ok([".a", ".b"])
    ensures KeysOf([".a", "", ".b"]) == Fail(EmptyToken)
  {
    var toks := [".a,", ".b"];
    KeysOfShape(toks);
    assert ".a,"[..2] == ".a";
    assert Key(toks[0]) == Ok(".a") && Key(toks[1]) == Ok(".b");
    var v := KeysOf(toks).value;
    assert v[0] == ".a" && v[1] == ".b";
    assert v == [".a", ".b"];
    KeysOfShape([".a", "", ".b"]);
    assert [".a", "", ".b"][1] == "";
  }

  /** `STYLES[key[1:]] += line`, or `= line` for a class seen first. */
  function Extend(styles: map<string, string>, key: string, value: string): (r: map<string, string>)
    ensures r.Keys == styles.Keys + {Tail(key)}
    ensures Tail(key) in styles ==> r[Tail(key)] == styles[Tail(key)] + value
    ensures Tail(key) !in styles ==> r[Tail(key)] == value
    ensures forall c :: c in styles && c != Tail(key) ==> r[c] == styles[c]
  {
    var c := Tail(key);
    styles[c := if c in styles then styles[c] + value else value]
  }

  /** The value line handed to every current key in order. */
  function Store(styles: map<string, string>, keys: seq<string>, value: string): map<string, string>
    decreases |keys|
  {
    if keys == [] then styles
    else Extend(Store(styles, keys[..|keys| - 1], value), keys[|keys| - 1], value)
  }

  /** The classes named by a list of keys: each key less its leading `.`. */
  function Classes(keys: seq<string>): set<string>
  {
    set k | 0 <= k < |keys| :: Tail(keys[k])
  }

  /**
   * Storing a value adds the keys' classes and otherwise only lengthens styles: every class
   * keeps its old style as a prefix, and classes not among the keys are untouched.
   */
  lemma {:induction false} StoreExtends(styles: map<string, string>, keys: seq<string>, value: string)
    ensures Store(styles, keys, value).Keys == styles.Keys + Classes(keys)
    ensures forall c :: c in styles ==> styles[c] <= Store(styles, keys, value)[c]
    ensures forall c :: c in styles && c !in Classes(keys) ==> Store(styles, keys, value)[c] == styles[c]
    decreases |keys|
  {
    if keys != [] {
      var init := keys[..|keys| - 1];
      var last := Tail(keys[|keys| - 1]);
      StoreExtends(styles, init, value);
      ClassesSnoc(keys);
      var mid := Store(styles, init, value);
      var cur := Store(styles, keys, value);
      assert cur == Extend(mid, keys[|keys| - 1], value);
      forall c | c in styles
        ensures styles[c] <= cur[c]
        ensures c !in Classes(keys) ==> cur[c] == styles[c]
      {
        assert styles[c] <= mid[c];
        if c == last {
          assert mid[c] <= mid[c] + value;
        }
      }
    }
  }

  /** The classes of a list of keys are those of all but its last key, plus the last key's. */
  lemma ClassesSnoc(keys: seq<string>)
    requires keys != []
    ensures Classes(keys) == Classes(keys[..|keys| - 1]) + {Tail(keys[|keys| - 1])}
  {
    var init := keys[..|keys| - 1];
    forall c
      ensures c in Classes(keys) <==> c in Classes(init) + {Tail(keys[|keys| - 1])}
    {
      if c in Classes(keys) {
        var k :| 0 <= k < |keys| && Tail(keys[k]) == c;
        if k < |keys| - 1 {
          assert init[k] == keys[k];
        }
      }
      if c in Classes(init) {
        var k :| 0 <= k < |init| && Tail(init[k]) == c;
        assert keys[k] == init[k];
      }
    }
  }

  /** A class named once among the keys gets the value appended exactly once. */
  lemma StoreOnce(styles: map<string, string>, key: string, value: string)
    ensures Tail(key) in styles ==> Store(styles, [key], value)[Tail(key)] == styles[Tail(key)] + value
    ensures Tail(key) !in styles ==> Store(styles, [key], value)[Tail(key)] == value
  {
    assert [key][..0] == [];
  }

  /** The variables of the line loop: the current keys and the table. */
  datatype Parser = Parser(keys: seq<string>, styles: map<string, string>)

  /** One line of the loop body. */
  function ParseLine(p: Parser, raw: string): Result<Parser>
  {
    var line := Strip(raw);
    if line == "" then Ok(p)
    else if StartsWith(line, ".") then
      var ks := LineKeys(line);
      if ks.Fail? then Fail(ks.fault) else Ok(p.(keys := ks.value))
    else if StartsWith(line, "}") then Ok(p)
    else Ok(p.(styles := Store(p.styles, p.keys, line)))
  }

  /** Where the line loop ends: the variables then, and whether a line raised. */
  datatype Run = Run(p: Parser, out: Outcome)

  /** The line loop: lines in order; a failing line stops it with what was stored before. */
  function ParseLines(p: Parser, lines: seq<string>): Run
    decreases |lines|
  {
    if lines == [] then Run(p, Done)
    else
      var q := ParseLine(p, lines[0]);
      if q.Fail? then Run(p, Abort(q.fault)) else ParseLines(q.value, lines[1..])
  }

  /** `text.splitlines()` for text whose lines end in `\n`. */
  function Lines(text: string): seq<string>
  {
    SplitOn(text, '\n')
  }

  /** The whole of `parse_style`: the keys start empty, the table is the one given. */
  function StyleRun(styles: map<string, string>, text: string): Run
  {
    ParseLines(Parser([], styles), Lines(text))
  }

  /** No line loses anything: every class keeps its style as a prefix of the new one. */
  predicate Grows(a: map<string, string>, b: map<string, string>)
  {
    a.Keys <= b.Keys && forall c :: c in a ==> a[c] <= b[c]
  }

  lemma GrowsTrans(a: map<string, string>, b: map<string, string>, c: map<string, string>)
    requires Grows(a, b) && Grows(b, c)
    ensures Grows(a, c)
  {
    forall k | k in a
      ensures a[k] <= c[k]
    {
      assert a[k] <= b[k] && b[k] <= c[k];
    }
  }

  /** One line only adds classes or appends to their styles. */
  lemma ParseLineGrows(p: Parser, raw: string)
    requires ParseLine(p, raw).Ok?
    ensures Grows(p.styles, ParseLine(p, raw).value.styles)
  {
    StoreExtends(p.styles, p.keys, Strip(raw));
  }

  /** The style text only adds classes and appends to styles, whether or not a line fails. */
  lemma {:induction false} ParseLinesGrows(p: Parser, lines: seq<string>)
    ensures Grows(p.styles, ParseLines(p, lines).p.styles)
    decreases |lines|
  {
    if lines != [] && ParseLine(p, lines[0]).Ok? {
      var q := ParseLine(p, lines[0]).value;
      ParseLineGrows(p, lines[0]);
      ParseLinesGrows(q, lines[1..]);
      GrowsTrans(p.styles, q.styles, ParseLines(p, lines).p.styles);
    }
  }

  /** A value line before any `.` line belongs to no class and changes nothing. */
  lemma NoKeysNoChange(styles: map<string, string>, raw: string)
    requires ParseLine(Parser([], styles), raw).Ok?
    ensures ParseLine(Parser([], styles), raw).value.styles == styles
  {
  }

  /** The table `STYLES`, which starts with the class `-` mapped to `-`. */
  class StyleSheet {
    var styles: map<string, string>

    constructor()
      ensures styles == map["-" := "-"]
    {
      styles := map["-" := "-"];
    }

    /** The value loop: `for key in keys`, appending the line to each key's class. */
    method StoreValue(keys: seq<string>, value: string)
      modifies this
      ensures styles == Store(old(styles), keys, value)
    {
      ghost var start := styles;
      var j := 0;
      while j < |keys|
        invariant 0 <= j <= |keys|
        invariant styles == Store(start, keys[..j], value)
      {
        assert keys[..j + 1][..j] == keys[..j];
        var c := Tail(keys[j]);
        if c in styles {
          styles := styles[c := styles[c] + value];
        } else {
          styles := styles[c := value];
        }
        j := j + 1;
      }
      assert keys[..|keys|] == keys;
    }

    /** One pass of the line loop: the keys it leaves, or the fault of an empty class token. */
    method ParseStep(keys: seq<string>, raw: string) returns (r: Result<seq<string>>)
      modifies this
      ensures r.Ok? ==> ParseLine(Parser(keys, old(styles)), raw) == Ok(Parser(r.value, styles))
      ensures r.Fail? ==> ParseLine(Parser(keys, old(styles)), raw) == Fail(r.fault) && styles == old(styles)
    {
      var line := Strip(raw);
      if line == "" {
      } else if StartsWith(line, ".") {
        var ks := LineKeys(line);
        if ks.Fail? {
          return Fail(ks.fault);
        }
        return Ok(ks.value);
      } else if StartsWith(line, "}") {
      } else {
        StoreValue(keys, line);
      }
      return Ok(keys);
    }

    /**
     * `parse_style`: the table ends as the line loop leaves it; an empty class token raises,
     * keeping what the lines before it stored.
     */
    method ParseStyle(text: string) returns (r: Outcome)
      modifies this
      ensures r == StyleRun(old(styles), text).out
      ensures styles == StyleRun(old(styles), text).p.styles
      ensures Grows(old(styles), styles)
    {
      ParseLinesGrows(Parser([], styles), Lines(text));
      var lines := Lines(text);
      ghost var run := StyleRun(styles, text);
      var keys: seq<string> := [];
      var i := 0;
      while i < |lines|
        invariant 0 <= i <= |lines|
        invariant run == ParseLines(Parser(keys, styles), lines[i..])
      {
        assert lines[i..][1..] == lines[i + 1..];
        var q := ParseStep(keys, lines[i]);
        if q.Fail? {
          return Abort(q.fault);
        }
        keys := q.value;
        i := i + 1;
      }
      return Done;
    }
  }
}
