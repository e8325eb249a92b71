/** `generate_iron_layer`: a layer's G-code is rewritten into an ironing pass. Comment lines are
    dropped; in every other line that has an extrusion (` E`) or speed (` S`) word, the
    non-negative `E` amounts are scaled by the extrusion ratio and the non-negative `S` values by
    the speed ratio. The output file's lines are returned instead of written. */
module Ironing {
  import opened Wrappers
  import opened Text
  import opened Numbers

  /** The ratios `generate_iron_layer` uses when its caller gives none. */
  const DefaultExtrusionRatio := 0.2
  const DefaultSpeedRatio := 0.6

  predicate IsComment(line: string) {
    StartsWith(line, ";")
  }

  /** The line has a word starting with `E` or `S` after a space. */
  predicate HasScaledWord(line: string) {
    Contains(line, " E") || Contains(line, " S")
  }

  /** `round(float(text), 3)` as a whole number of thousandths, or the `ValueError` of `float`. */
  function ReadMilli(text: string): Result<int> {
    match ParseDecimal(text)
    case None => Err(ValueError(text))
    case Some(d) => Ok(RoundMilli(Value(d)))
  }

  /** The `E` word for `m` thousandths scaled by `ratio`: `"E{}".format(round(m / 1000 * ratio, 3))`. */
  function ExtrusionWord(m: int, ratio: real): string {
    "E" + FormatMilli(RoundMilli(m as real / 1000.0 * ratio))
  }

  /** The `S` word for `m` thousandths scaled by `ratio`: `"S{}".format(int(m / 1000 * ratio))`. */
  function SpeedWord(m: int, ratio: real): string {
    "S" + FormatInt(Truncate(m as real / 1000.0 * ratio))
  }

  /** One word of a rewritten line: a non-negative `E` amount becomes its product with
      `eRatio`, rounded to 3 places; a non-negative `S` value becomes its product with `sRatio`,
      truncated to an integer; every other word stays. */
  function IronWord(word: string, eRatio: real, sRatio: real): Result<string> {
    if StartsWith(word, "E") then
      var m :- ReadMilli(word[1..]);
      if m < 0 then Ok(word) else Ok(ExtrusionWord(m, eRatio))
    else if StartsWith(word, "S") then
      var m :- ReadMilli(word[1..]);
      if m < 0 then Ok(word) else Ok(SpeedWord(m, sRatio))
    else
      Ok(word)
  }

  /** The words of a line, rewritten left to right; the first unreadable number stops it. */
  function IronWords(words: seq<string>, eRatio: real, sRatio: real): (r: Result<seq<string>>)
    ensures r.Ok? ==> |r.value| == |words|
  {
    if words == [] then Ok([])
    else
      var done :- IronWords(words[..|words| - 1], eRatio, sRatio);
      var w :- IronWord(words[|words| - 1], eRatio, sRatio);
      Ok(done + [w])
  }

  /** A stripped, non-comment line: kept as it is without an `E` or `S` word, else split at
      single spaces, rewritten word by word and joined again. */
  function Rewrite(line: string, eRatio: real, sRatio: real): Result<string> {
    if !HasScaledWord(line) then Ok(line)
    else
      var words :- IronWords(Split(line), eRatio, sRatio);
      Ok(Join(words))
  }

  /** The main loop over the stripped lines. */
  function IronLines(lines: seq<string>, eRatio: real, sRatio: real): Result<seq<string>> {
    if lines == [] then Ok([])
    else
      var out :- IronLines(lines[..|lines| - 1], eRatio, sRatio);
      var line := lines[|lines| - 1];
      if IsComment(line) then Ok(out)
      else
        var l :- Rewrite(line, eRatio, sRatio);
        Ok(out + [l])
  }

  /** What `generate_iron_layer` writes for the lines of a file, or the error it raises first
      (the output file is opened only after the loop, so an error leaves none). */
  function Iron(fileLines: seq<string>, eRatio: real, sRatio: real): Result<seq<string>> {
    IronLines(StripAll(fileLines), eRatio, sRatio)
  }

  /** `generate_iron_layer` with its loop over the lines. */
  method GenerateIronLayer(fileLines: seq<string>, eRatio: real, sRatio: real) returns (r: Result<seq<string>>)
    ensures r == Iron(fileLines, eRatio, sRatio)
  {
    var gcode := StripAll(fileLines);
    var out: seq<string> := [];
    var i := 0;
    while i < |gcode|
      invariant 0 <= i <= |gcode|
      invariant IronLines(gcode[..i], eRatio, sRatio) == Ok(out)
    {
      assert gcode[..i + 1][..i] == gcode[..i];
      var line := gcode[i];
      IronLinesLast(gcode[..i + 1], eRatio, sRatio);
      if IsComment(line) {
      } else if !HasScaledWord(line) {
        out := out + [line];
      } else {
        var words := RewriteWords(Split(line), eRatio, sRatio);
        if words.Err? {
          IronLinesErrorSticks(gcode, i + 1, eRatio, sRatio);
          return Err(words.error);
        }
        out := out + [Join(words.value)];
      }
      i := i + 1;
    }
    assert gcode[..i] == gcode;
    r := Ok(out);
  }

  /** The last line's step of `IronLines`: a comment adds nothing, any other line adds its
      rewrite or fails with it. */
  lemma IronLinesLast(lines: seq<string>, eRatio: real, sRatio: real)
    requires lines != [] && IronLines(lines[..|lines| - 1], eRatio, sRatio).Ok?
    ensures var before, line := IronLines(lines[..|lines| - 1], eRatio, sRatio).value, lines[|lines| - 1];
      IronLines(lines, eRatio, sRatio)
        == if IsComment(line) then Ok(before)
           else if Rewrite(line, eRatio, sRatio).Err? then Err(Rewrite(line, eRatio, sRatio).error)
           else Ok(before + [Rewrite(line, eRatio, sRatio).value])
  {
  }

  /** The inner loop: `ele_list[i]` is replaced in place for each `E` or `S` word. */
  method RewriteWords(words: seq<string>, eRatio: real, sRatio: real) returns (r: Result<seq<string>>)
    ensures r == IronWords(words, eRatio, sRatio)
  {
    var list := words;
    var i := 0;
    while i < |words|
      invariant 0 <= i <= |words| && |list| == |words|
      invariant IronWords(words[..i], eRatio, sRatio) == Ok(list[..i])
      invariant list[i..] == words[i..]
    {
      assert words[..i + 1][..i] == words[..i];
      var ele := list[i];
      assert ele == words[i];
      var w := RewriteWord(ele, eRatio, sRatio);
      if w.Err? {
        IronWordsErrorSticks(words, i + 1, eRatio, sRatio);
        return Err(w.error);
      }
      assert IronWords(words[..i + 1], eRatio, sRatio) == Ok(list[..i] + [w.value]);
      list := list[i := w.value];
      assert list[..i + 1] == list[..i] + [w.value];
      assert list[i + 1..] == words[i + 1..];
      i := i + 1;
    }
    assert words[..i] == words && list[..i] == list;
    r := Ok(list);
  }

  /** The body of the inner loop for one word. */
  method RewriteWord(ele: string, eRatio: real, sRatio: real) returns (r: Result<string>)
    ensures r == IronWord(ele, eRatio, sRatio)
  {
    r := Ok(ele);
    if StartsWith(ele, "E") {
      var original := ReadMilli(ele[1..]);
      if original.Err? {
        return Err(original.error);
      }
      if original.value >= 0 {
        r := Ok(ExtrusionWord(original.value, eRatio));
      }
    } else if StartsWith(ele, "S") {
      var original := ReadMilli(ele[1..]);
      if original.Err? {
        return Err(original.error);
      }
      if original.value >= 0 {
        r := Ok(SpeedWord(original.value, sRatio));
      }
    }
  }

  /** Once some words fail, the whole line fails with the same error. */
  lemma {:induction false} IronWordsErrorSticks(words: seq<string>, n: nat, eRatio: real, sRatio: real)
    requires n <= |words| && IronWords(words[..n], eRatio, sRatio).Err?
    ensures IronWords(words, eRatio, sRatio) == IronWords(words[..n], eRatio, sRatio)
    decreases |words|
  {
    if n < |words| {
      var init := words[..|words| - 1];
      assert init[..n] == words[..n];
      IronWordsErrorSticks(init, n, eRatio, sRatio);
    } else {
      assert words[..n] == words;
    }
  }

  /** Once some lines fail, the whole file fails with the same error. */
  lemma {:induction false} IronLinesErrorSticks(lines: seq<string>, n: nat, eRatio: real, sRatio: real)
    requires n <= |lines| && IronLines(lines[..n], eRatio, sRatio).Err?
    ensures IronLines(lines, eRatio, sRatio) == IronLines(lines[..n], eRatio, sRatio)
    decreases |lines|
  {
    if n < |lines| {
      var init := lines[..|lines| - 1];
      assert init[..n] == lines[..n];
      IronLinesErrorSticks(init, n, eRatio, sRatio);
    } else {
      assert lines[..n] == lines;
    }
  }

  // ---------------------------------------------------------------------------------------------
  // What a word becomes

  /** The word carries a number `generate_iron_layer` rescales. */
  predicate Scaled(word: string) {
    StartsWith(word, "E") || StartsWith(word, "S")
  }

  /** The word's number is one `float` cannot read. */
  predicate Unreadable(word: string) {
    Scaled(word) && ParseDecimal(word[1..]).None?
  }

  /** A new `E` word is one word and reads back as `m` thousandths times `ratio`, rounded to
      three places. */
  lemma ExtrusionWordMeaning(m: int, ratio: real)
    ensures var w := ExtrusionWord(m, ratio);
      w[0] == 'E' && ' ' !in w && ParseDecimal(w[1..]).Some?
      && Value(ParseDecimal(w[1..]).value) == RoundMilli(m as real / 1000.0 * ratio) as real / 1000.0
  {
    var n := RoundMilli(m as real / 1000.0 * ratio);
    var w := ExtrusionWord(m, ratio);
    assert w == "E" + FormatMilli(n);
    assert w[1..] == FormatMilli(n);
    FormatMilliRoundTrip(n);
    FormatMilliWord(n);
  }

  /** A new `S` word is one word and reads back as the integer part of `m` thousandths times
      `ratio`. */
  lemma SpeedWordMeaning(m: int, ratio: real)
    ensures var w := SpeedWord(m, ratio);
      w[0] == 'S' && ' ' !in w && ParseDecimal(w[1..]).Some?
      && Value(ParseDecimal(w[1..]).value) == Truncate(m as real / 1000.0 * ratio) as real
  {
    var n := Truncate(m as real / 1000.0 * ratio);
    var w := SpeedWord(m, ratio);
    assert w == "S" + FormatInt(n);
    assert w[1..] == FormatInt(n);
    FormatIntRoundTrip(n);
    FormatIntWord(n);
  }

  /** The amount in thousandths that `round(float(word[1:]), 3)` gives. */
  function Amount(word: string): int
    requires |word| >= 1 && ParseDecimal(word[1..]).Some?
  {
    RoundMilli(Value(ParseDecimal(word[1..]).value))
  }

  /** A negative `E` amount or `S` value (a retraction, say) is left as written. */
  lemma NegativeKept(word: string, eRatio: real, sRatio: real)
    requires Scaled(word) && ParseDecimal(word[1..]).Some? && Amount(word) < 0
    ensures IronWord(word, eRatio, sRatio) == Ok(word)
  {
  }

  /** A non-negative `E` amount is replaced by the `E` word for the amount rounded to 3 places
      and scaled by `eRatio` (what that word reads back as is `ExtrusionWordMeaning`). */
  lemma ExtrusionScaled(word: string, eRatio: real, sRatio: real)
    requires StartsWith(word, "E") && ParseDecimal(word[1..]).Some? && Amount(word) >= 0
    ensures IronWord(word, eRatio, sRatio) == Ok(ExtrusionWord(Amount(word), eRatio))
  {
  }

  /** A non-negative `S` value is replaced by the `S` word for the value rounded to 3 places
      and scaled by `sRatio` (what that word reads back as is `SpeedWordMeaning`). */
  lemma SpeedScaled(word: string, eRatio: real, sRatio: real)
    requires StartsWith(word, "S") && ParseDecimal(word[1..]).Some? && Amount(word) >= 0
    ensures IronWord(word, eRatio, sRatio) == Ok(SpeedWord(Amount(word), sRatio))
  {
    assert word[0] == 'S';
  }

  lemma ReadTwoPointZero()
    ensures ParseDecimal("2.0") == Some(Decimal(false, 20, 1))
  {
    assert "2.0" == "2" + "." + "0";
    ParsePointed("2", "0");
    assert DigitsValue("2" + "0") == 20 by {
      assert ("2" + "0")[..1] == "2";
      assert "2"[..0] == [];
    }
    ParseSigned(false, "2.0");
    assert "" + "2.0" == "2.0";
  }

  lemma ReadSixThousand()
    ensures ParseDecimal("6000") == Some(Decimal(false, 6000, 0))
  {
    ParseWhole("6000");
    assert DigitsValue("6000") == 6000 by {
      assert "6000"[..3] == "600";
      assert "600"[..2] == "60";
      assert "60"[..1] == "6";
      assert "6"[..0] == [];
    }
    ParseSigned(false, "6000");
    assert "" + "6000" == "6000";
  }

  lemma AmountTwo()
    ensures Amount("E2.0") == 2000
  {
    assert "E2.0"[1..] == "2.0";
    ReadTwoPointZero();
    assert Shift(20.0, 1) == Shift(20.0, 0) / 10.0 == 2.0;
    assert Value(Decimal(false, 20, 1)) == 2.0;
    assert RoundHalfEven(2000.0) == 2000 by {
      assert (2000.0).Floor == 2000;
    }
  }

  lemma AmountSixThousand()
    ensures Amount("S6000") == 6000000
  {
    assert "S6000"[1..] == "6000";
    ReadSixThousand();
    assert Value(Decimal(false, 6000, 0)) == 6000.0;
    assert RoundHalfEven(6000000.0) == 6000000 by {
      assert (6000000.0).Floor == 6000000;
    }
  }

  lemma ExtrusionWordExample()
    ensures ExtrusionWord(2000, DefaultExtrusionRatio) == "E0.4"
  {
    assert 2000 as real / 1000.0 * DefaultExtrusionRatio == 0.4;
    assert RoundHalfEven(400.0) == 400 by {
      assert (400.0).Floor == 400;
    }
    assert FormatNat(0) == "0";
    assert MilliFraction(400) == "4";
    assert FormatMilli(400) == "" + "0" + "." + "4";
  }

  lemma SpeedWordExample()
    ensures SpeedWord(6000000, DefaultSpeedRatio) == "S3600"
  {
    assert 6000000 as real / 1000.0 * DefaultSpeedRatio == 3600.0;
    assert Truncate(3600.0) == 3600 by {
      assert (3600.0).Floor == 3600;
    }
    assert FormatNat(3) == "3";
    assert FormatNat(36) == FormatNat(3) + "6";
    assert FormatNat(360) == FormatNat(36) + "0";
    assert FormatNat(3600) == FormatNat(360) + "0";
  }

  /** With the default ratio an extrusion of `2.0` becomes `0.4`. */
  lemma DefaultExtrusionExample()
    ensures IronWord("E2.0", DefaultExtrusionRatio, DefaultSpeedRatio) == Ok("E0.4")
  {
    AmountTwo();
    ExtrusionScaled("E2.0", DefaultExtrusionRatio, DefaultSpeedRatio);
    ExtrusionWordExample();
  }

  /** With the default ratio a speed of `6000` becomes `3600`. */
  lemma DefaultSpeedExample()
    ensures IronWord("S6000", DefaultExtrusionRatio, DefaultSpeedRatio) == Ok("S3600")
  {
    AmountSixThousand();
    SpeedScaled("S6000", DefaultExtrusionRatio, DefaultSpeedRatio);
    SpeedWordExample();
  }

  /** With the default ratios the whole line `G1 X10 Y20 E2.0 S6000` becomes
      `G1 X10 Y20 E0.4 S3600`: the E and S words are scaled, the others kept. */
  lemma DefaultLineExample()
    ensures Rewrite("G1 X10 Y20 E2.0 S6000", DefaultExtrusionRatio, DefaultSpeedRatio)
         == Ok("G1 X10 Y20 E0.4 S3600")
  {
    ExampleLineScaled();
    ExampleLineWords();
    ExampleWordsIroned();
    ExampleJoined();
    RewriteOfWords("G1 X10 Y20 E2.0 S6000", ["G1", "X10", "Y20", "E0.4", "S3600"],
      DefaultExtrusionRatio, DefaultSpeedRatio);
  }

  lemma ExampleJoined()
    ensures Join(["G1", "X10", "Y20", "E0.4", "S3600"]) == "G1 X10 Y20 E0.4 S3600"
  {
  }

  /** A line with an `E` or `S` word whose words all rewrite is the join of the rewritten words. */
  lemma RewriteOfWords(line: string, out: seq<string>, eRatio: real, sRatio: real)
    requires HasScaledWord(line) && IronWords(Split(line), eRatio, sRatio) == Ok(out)
    ensures Rewrite(line, eRatio, sRatio) == Ok(Join(out))
  {
  }

  lemma ExampleLineScaled()
    ensures HasScaledWord("G1 X10 Y20 E2.0 S6000")
  {
    var line := "G1 X10 Y20 E2.0 S6000";
    assert line[10..12] == " E";
    OccursContains(line, " E", 10);
  }

  lemma ExampleLineWords()
    ensures Split("G1 X10 Y20 E2.0 S6000") == ["G1", "X10", "Y20", "E2.0", "S6000"]
  {
    var words := ["G1", "X10", "Y20", "E2.0", "S6000"];
    assert Join(words) == "G1 X10 Y20 E2.0 S6000";
    SplitJoin(words);
  }

  lemma ExampleWordsIroned()
    ensures IronWords(["G1", "X10", "Y20", "E2.0", "S6000"], DefaultExtrusionRatio, DefaultSpeedRatio)
         == Ok(["G1", "X10", "Y20", "E0.4", "S3600"])
  {
    var e, s := DefaultExtrusionRatio, DefaultSpeedRatio;
    var words := ["G1", "X10", "Y20", "E2.0", "S6000"];
    var out := ["G1", "X10", "Y20", "E0.4", "S3600"];
    forall k | 0 <= k < |words|
      ensures IronWord(words[k], e, s) == Ok(out[k])
    {
      if k == 3 {
        assert words[k] == "E2.0";
        DefaultExtrusionExample();
      } else if k == 4 {
        assert words[k] == "S6000";
        DefaultSpeedExample();
      } else if k == 0 {
        KeptExample("G1");
      } else if k == 1 {
        KeptExample("X10");
      } else {
        KeptExample("Y20");
      }
    }
    IronWordsFromWords(words, out, e, s);
  }

  lemma KeptExample(word: string)
    requires word != [] && word[0] in "GXY"
    ensures IronWord(word, DefaultExtrusionRatio, DefaultSpeedRatio) == Ok(word)
  {
    IronWordMeaning(word, DefaultExtrusionRatio, DefaultSpeedRatio);
  }

  /** A word fails exactly when its `E`/`S` number cannot be read, words without one stay,
      and a word that was one word is still one word. */
  lemma IronWordMeaning(word: string, eRatio: real, sRatio: real)
    ensures IronWord(word, eRatio, sRatio).Err? <==> Unreadable(word)
    ensures !Scaled(word) ==> IronWord(word, eRatio, sRatio) == Ok(word)
    ensures IronWord(word, eRatio, sRatio).Ok? && ' ' !in word ==> ' ' !in IronWord(word, eRatio, sRatio).value
  {
    if Scaled(word) && !Unreadable(word) && Amount(word) >= 0 {
      if StartsWith(word, "E") {
        ExtrusionScaled(word, eRatio, sRatio);
        ExtrusionWordMeaning(Amount(word), eRatio);
      } else {
        SpeedScaled(word, eRatio, sRatio);
        SpeedWordMeaning(Amount(word), sRatio);
      }
    }
  }

  /** Each output word is what `IronWord` makes of the input word at the same place, and the
      line fails exactly when one of its words has an unreadable number. */
  lemma IronWordsMeaning(words: seq<string>, eRatio: real, sRatio: real)
    ensures IronWords(words, eRatio, sRatio).Err? <==> exists k :: 0 <= k < |words| && Unreadable(words[k])
    ensures IronWords(words, eRatio, sRatio).Ok? ==>
      forall k :: 0 <= k < |words| ==> IronWord(words[k], eRatio, sRatio) == Ok(IronWords(words, eRatio, sRatio).value[k])
  {
    IronWordsFail(words, eRatio, sRatio);
    IronWordsPointwise(words, eRatio, sRatio);
  }

  lemma {:induction false} IronWordsFail(words: seq<string>, eRatio: real, sRatio: real)
    ensures IronWords(words, eRatio, sRatio).Err? <==> exists k :: 0 <= k < |words| && Unreadable(words[k])
  {
    if words == [] {
      assert IronWords(words, eRatio, sRatio) == Ok([]);
    } else {
      var init, last := words[..|words| - 1], words[|words| - 1];
      IronWordsFail(init, eRatio, sRatio);
      IronWordMeaning(last, eRatio, sRatio);
      IronWordsLast(words, eRatio, sRatio);
      SomeUnreadableSplit(words);
    }
  }

  /** Some word of `words` has an unreadable number. */
  predicate SomeUnreadable(words: seq<string>) {
    exists k :: 0 <= k < |words| && Unreadable(words[k])
  }

  /** Some word is unreadable exactly when one before the last or the last one is. */
  lemma SomeUnreadableSplit(words: seq<string>)
    requires words != []
    ensures SomeUnreadable(words) <==> SomeUnreadable(words[..|words| - 1]) || Unreadable(words[|words| - 1])
  {
    var init := words[..|words| - 1];
    if SomeUnreadable(words) {
      var k :| 0 <= k < |words| && Unreadable(words[k]);
      if k < |init| {
        assert Unreadable(init[k]);
      }
    }
    if SomeUnreadable(init) {
      var k :| 0 <= k < |init| && Unreadable(init[k]);
      assert Unreadable(words[k]);
    }
  }

  lemma {:induction false} IronWordsPointwise(words: seq<string>, eRatio: real, sRatio: real)
    ensures IronWords(words, eRatio, sRatio).Ok? ==>
      forall k :: 0 <= k < |words| ==> IronWord(words[k], eRatio, sRatio) == Ok(IronWords(words, eRatio, sRatio).value[k])
  {
    if words != [] && IronWords(words, eRatio, sRatio).Ok? {
      var init, last := words[..|words| - 1], words[|words| - 1];
      IronWordsPointwise(init, eRatio, sRatio);
      IronWordsLast(words, eRatio, sRatio);
      var f := (x: string) => IronWord(x, eRatio, sRatio);
      PointwiseLast(words, IronWords(init, eRatio, sRatio).value, IronWord(last, eRatio, sRatio).value, f);
    }
  }

  /** What `f` makes of the words before the last, and of the last, is what it makes of all
      words. */
  lemma PointwiseLast(words: seq<string>, before: seq<string>, w: string, f: string -> Result<string>)
    requires words != [] && |before| == |words| - 1
    requires forall k :: 0 <= k < |before| ==> f(words[..|words| - 1][k]) == Ok(before[k])
    requires f(words[|words| - 1]) == Ok(w)
    ensures forall k :: 0 <= k < |words| ==> f(words[k]) == Ok((before + [w])[k])
  {
    forall k | 0 <= k < |words|
      ensures f(words[k]) == Ok((before + [w])[k])
    {
      if k < |before| {
        assert words[k] == words[..|words| - 1][k];
      }
    }
  }

  /** The last word's step of `IronWords`: the line succeeds exactly when its words before the
      last and its last word do, and then the last output word is the last word's rewrite. */
  lemma IronWordsLast(words: seq<string>, eRatio: real, sRatio: real)
    requires words != []
    ensures var init, last := words[..|words| - 1], words[|words| - 1];
      IronWords(words, eRatio, sRatio).Ok? <==> IronWords(init, eRatio, sRatio).Ok? && IronWord(last, eRatio, sRatio).Ok?
    ensures var init, last := words[..|words| - 1], words[|words| - 1];
      IronWords(words, eRatio, sRatio).Ok? ==>
        IronWords(words, eRatio, sRatio).value == IronWords(init, eRatio, sRatio).value + [IronWord(last, eRatio, sRatio).value]
  {
  }

  /** Conversely, when every word rewrites to the word at the same place in `out`, the line's
      words rewrite to `out`. */
  lemma IronWordsFromWords(words: seq<string>, out: seq<string>, eRatio: real, sRatio: real)
    requires |words| == |out|
    requires forall k :: 0 <= k < |words| ==> IronWord(words[k], eRatio, sRatio) == Ok(out[k])
    ensures IronWords(words, eRatio, sRatio) == Ok(out)
  {
    IronWordsMeaning(words, eRatio, sRatio);
    forall k | 0 <= k < |words|
      ensures !Unreadable(words[k])
    {
      IronWordMeaning(words[k], eRatio, sRatio);
    }
    assert IronWords(words, eRatio, sRatio).Ok?;
    var v := IronWords(words, eRatio, sRatio).value;
    assert |v| == |out|;
    assert forall k :: 0 <= k < |words| ==> v[k] == out[k];
    assert v == out;
  }

  /** A rewritten line keeps its number of space-separated words, and each word becomes what
      `IronWord` makes of it; a line without an `E` or `S` word is output unchanged. */
  lemma RewriteShape(line: string, eRatio: real, sRatio: real)
    requires Rewrite(line, eRatio, sRatio).Ok?
    ensures !HasScaledWord(line) ==> Rewrite(line, eRatio, sRatio).value == line
    ensures HasScaledWord(line) ==>
      var out, words := Split(Rewrite(line, eRatio, sRatio).value), Split(line);
      |out| == |words| && forall k :: 0 <= k < |words| ==> IronWord(words[k], eRatio, sRatio) == Ok(out[k])
  {
    if HasScaledWord(line) {
      var words := Split(line);
      var out := IronWords(words, eRatio, sRatio).value;
      IronWordsMeaning(words, eRatio, sRatio);
      forall k | 0 <= k < |out|
        ensures ' ' !in out[k]
      {
        IronWordMeaning(words[k], eRatio, sRatio);
      }
      SplitJoin(out);
    }
  }

  // ---------------------------------------------------------------------------------------------
  // Which lines come out

  /** The lines that are not comments, in order. */
  function Code(lines: seq<string>): (r: seq<string>)
    ensures |r| <= |lines|
    ensures forall i :: 0 <= i < |r| ==> !IsComment(r[i])
    ensures forall i :: 0 <= i < |lines| && !IsComment(lines[i]) ==> lines[i] in r
    ensures forall x :: x in r ==> x in lines
  {
    if lines == [] then []
    else
      var line := lines[|lines| - 1];
      Code(lines[..|lines| - 1]) + (if IsComment(line) then [] else [line])
  }

  /** Every line rewritten, in order, or the first error. */
  function RewriteAll(lines: seq<string>, eRatio: real, sRatio: real): (r: Result<seq<string>>)
    ensures r.Ok? ==> |r.value| == |lines|
  {
    if lines == [] then Ok([])
    else
      var out :- RewriteAll(lines[..|lines| - 1], eRatio, sRatio);
      var l :- Rewrite(lines[|lines| - 1], eRatio, sRatio);
      Ok(out + [l])
  }

  /** Comment lines are dropped and every other line is rewritten, in the order of the input. */
  lemma {:induction false} IronLinesCode(lines: seq<string>, eRatio: real, sRatio: real)
    ensures IronLines(lines, eRatio, sRatio) == RewriteAll(Code(lines), eRatio, sRatio)
  {
    if lines != [] {
      var init, line := lines[..|lines| - 1], lines[|lines| - 1];
      IronLinesCode(init, eRatio, sRatio);
      var c := Code(lines);
      if IsComment(line) {
        assert c == Code(init) + [];
        assert c == Code(init);
        assert IronLines(lines, eRatio, sRatio) == IronLines(init, eRatio, sRatio);
      } else {
        assert c == Code(init) + [line];
        assert c[..|c| - 1] == Code(init) && c[|c| - 1] == line;
      }
    }
  }

  // ---------------------------------------------------------------------------------------------
  // When it raises

  /** A line raises exactly when it has an `E` or `S` word and one of its words has an
      unreadable number; the ratios play no part. */
  lemma RewriteFails(line: string, eRatio: real, sRatio: real)
    ensures Rewrite(line, eRatio, sRatio).Err? <==> HasScaledWord(line) && SomeUnreadable(Split(line))
  {
    IronWordsFail(Split(line), eRatio, sRatio);
  }

  lemma {:induction false} IronLinesFailAlike(lines: seq<string>, e1: real, s1: real, e2: real, s2: real)
    ensures IronLines(lines, e1, s1).Err? <==> IronLines(lines, e2, s2).Err?
  {
    if lines != [] {
      var init, line := lines[..|lines| - 1], lines[|lines| - 1];
      IronLinesFailAlike(init, e1, s1, e2, s2);
      RewriteFails(line, e1, s1);
      RewriteFails(line, e2, s2);
    }
  }

  /** Whether `generate_iron_layer` raises on a file does not depend on the ratios it is given. */
  lemma IronFailsAlike(fileLines: seq<string>, e1: real, s1: real, e2: real, s2: real)
    ensures Iron(fileLines, e1, s1).Err? <==> Iron(fileLines, e2, s2).Err?
  {
    IronLinesFailAlike(StripAll(fileLines), e1, s1, e2, s2);
  }
}
