/**
 * The calculator's expression line and what one committed key does to it:
 * a result on show is cleared first, `=` replaces the text by its value (or
 * "Error"), and every other key is appended as typed.
 *
 * Evaluation of the text is not modelled: it is the parameter `eval`, which
 * yields the result's text or None when evaluation fails.
 */
module Expression {
  import opened Wrappers

  /** The key that evaluates the expression. */
  const EqualsKey: string := "="

  /** What the expression becomes when evaluation fails. */
  const ErrorText: string := "Error"

  /**
   * The expression text together with the flag that says it holds a result
   * (or "Error") that the next key press clears.
   */
  datatype Entry = Entry(equation: string, calculated: bool)

  /** The entry a calculator starts with. */
  const Initial: Entry := Entry("", false)

  /** What `=` puts on show for the text `equation`. */
  function Evaluate(eval: string -> Option<string>, equation: string): string {
    match eval(equation)
    case Some(result) => result
    case None => ErrorText
  }

  /**
   * The entry after the key `value` is committed: a shown result is first
   * cleared, then `=` evaluates and every other key appends.
   */
  function Press(e: Entry, value: string, eval: string -> Option<string>): (next: Entry)
    ensures next.calculated <==> value == EqualsKey
  {
    var start := if e.calculated then Initial else e;
    if value == EqualsKey then Entry(Evaluate(eval, start.equation), true)
    else Entry(start.equation + value, false)
  }

  /** The text a key press builds on: empty while a result is on show. */
  function Start(e: Entry): string {
    if e.calculated then "" else e.equation
  }

  /** Clear-then-apply: after a result, a key acts exactly as on a fresh calculator. */
  lemma PressAfterResult(e: Entry, value: string, eval: string -> Option<string>)
    requires e.calculated
    ensures Press(e, value, eval) == Press(Initial, value, eval)
  {
  }

  /** A key other than `=` extends the text it builds on by its label. */
  lemma PressAppends(e: Entry, value: string, eval: string -> Option<string>)
    requires value != EqualsKey
    ensures Press(e, value, eval) == Entry(Start(e) + value, false)
    ensures !e.calculated ==> Press(e, value, eval).equation == e.equation + value
    ensures e.calculated ==> Press(e, value, eval).equation == value
  {
  }

  /** `=` shows the evaluator's text, or "Error" when it fails, and marks a result. */
  lemma PressEquals(e: Entry, eval: string -> Option<string>)
    ensures Press(e, EqualsKey, eval).calculated
    ensures eval(Start(e)).Some? ==> Press(e, EqualsKey, eval).equation == eval(Start(e)).value
    ensures eval(Start(e)).None? ==> Press(e, EqualsKey, eval).equation == ErrorText
  {
  }

  /** The entry after the keys are committed one after another. */
  function PressAll(e: Entry, keys: seq<string>, eval: string -> Option<string>): Entry
    decreases |keys|
  {
    if keys == [] then e else PressAll(Press(e, keys[0], eval), keys[1..], eval)
  }

  /** The labels of the keys, written one after another. */
  function Concat(keys: seq<string>): string {
    if keys == [] then "" else keys[0] + Concat(keys[1..])
  }

  predicate NoEquals(keys: seq<string>) {
    forall i :: 0 <= i < |keys| ==> keys[i] != EqualsKey
  }

  /** Committing `a` and then `b` is committing `a + b`. */
  lemma {:induction false} PressAllAppend(e: Entry, a: seq<string>, b: seq<string>, eval: string -> Option<string>)
    ensures PressAll(e, a + b, eval) == PressAll(PressAll(e, a, eval), b, eval)
    decreases |a|
  {
    if a == [] {
      assert a + b == b;
    } else {
      assert (a + b)[1..] == a[1..] + b;
      PressAllAppend(Press(e, a[0], eval), a[1..], b, eval);
    }
  }

  /** Concatenating the labels of `a + b` concatenates the two texts. */
  lemma {:induction false} ConcatAppend(a: seq<string>, b: seq<string>)
    ensures Concat(a + b) == Concat(a) + Concat(b)
    decreases |a|
  {
    if a == [] {
      assert a + b == b;
    } else {
      assert (a + b)[1..] == a[1..] + b;
      ConcatAppend(a[1..], b);
    }
  }

  /**
   * Typing keys other than `=` appends their labels to the text the first
   * key builds on, and leaves no result on show.
   */
  lemma {:induction false} TypingAppends(e: Entry, keys: seq<string>, eval: string -> Option<string>)
    requires keys != [] && NoEquals(keys)
    ensures PressAll(e, keys, eval) == Entry(Start(e) + Concat(keys), false)
    decreases |keys|
  {
    var next := Press(e, keys[0], eval);
    assert keys[0] != EqualsKey;
    assert next == Entry(Start(e) + keys[0], false);
    var rest := keys[1..];
    assert PressAll(e, keys, eval) == PressAll(next, rest, eval);
    assert Concat(keys) == keys[0] + Concat(rest);
    if rest == [] {
      assert Concat(keys) == keys[0];
    } else {
      assert NoEquals(rest) by {
        forall i | 0 <= i < |rest| ensures rest[i] != EqualsKey {
          assert rest[i] == keys[i + 1];
        }
      }
      TypingAppends(next, rest, eval);
      assert Start(next) + Concat(rest) == Start(e) + (keys[0] + Concat(rest));
    }
  }

  /**
   * Typing keys other than `=` and then `=` shows the value of the typed
   * text, built on the text the first key builds on, as a result.
   */
  lemma EqualsEvaluatesTyped(e: Entry, keys: seq<string>, eval: string -> Option<string>)
    requires NoEquals(keys)
    ensures PressAll(e, keys + [EqualsKey], eval) == Entry(Evaluate(eval, Start(e) + Concat(keys)), true)
  {
    PressAllAppend(e, keys, [EqualsKey], eval);
    assert [EqualsKey][1..] == [];
    if keys == [] {
      assert Start(e) + Concat(keys) == Start(e);
    } else {
      TypingAppends(e, keys, eval);
    }
  }

  /**
   * The flag says a result is on show exactly when the last key committed
   * was `=`.
   */
  lemma {:induction false} FlagTracksLastKey(e: Entry, keys: seq<string>, eval: string -> Option<string>)
    ensures PressAll(e, keys, eval).calculated
        == if keys == [] then e.calculated else keys[|keys| - 1] == EqualsKey
    decreases |keys|
  {
    if keys != [] {
      FlagTracksLastKey(Press(e, keys[0], eval), keys[1..], eval);
    }
  }

  /**
   * "1", "+", "1", "=" on a fresh calculator shows the value of "1+1" as a
   * result; a following "+" starts a new expression "+".
   */
  lemma OnePlusOne(eval: string -> Option<string>)
    requires eval("1+1") == Some("2")
    ensures PressAll(Initial, ["1", "+", "1", "="], eval) == Entry("2", true)
    ensures PressAll(Initial, ["1", "+", "1", "=", "+"], eval) == Entry("+", false)
  {
    var keys := ["1", "+", "1"];
    EqualsEvaluatesTyped(Initial, keys, eval);
    assert keys + [EqualsKey] == ["1", "+", "1", "="];
    assert Concat(keys) == "1" + Concat(["+", "1"]) == "1+" + Concat(["1"]) == "1+1";
    assert Start(Initial) + Concat(keys) == "1+1";
    assert Evaluate(eval, "1+1") == "2";
    PressAllAppend(Initial, ["1", "+", "1", "="], ["+"], eval);
  }

  /** "5", "/", "0", "=" with an evaluator that fails on "5/0" shows "Error" as a result. */
  lemma DivisionByZeroShowsError(eval: string -> Option<string>)
    requires eval("5/0") == None
    ensures PressAll(Initial, ["5", "/", "0", "="], eval) == Entry(ErrorText, true)
  {
    var keys := ["5", "/", "0"];
    EqualsEvaluatesTyped(Initial, keys, eval);
    assert keys + [EqualsKey] == ["5", "/", "0", "="];
    assert Concat(keys) == "5" + Concat(["/", "0"]) == "5/" + Concat(["0"]) == "5/0";
    assert Start(Initial) + Concat(keys) == "5/0";
    assert Evaluate(eval, "5/0") == ErrorText;
  }
}
