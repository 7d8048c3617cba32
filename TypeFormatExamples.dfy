/** The type names the tests of test/actions.js and test/helpers.js expect, evaluated
    word by word. Each lemma takes its literal as a parameter fixed by `requires`: the
    verifier then unfolds the word splitter on a variable rather than on the literal,
    which keeps every proof within the resource limit. */
module TypeFormatExamples {
  import opened Values
  import opened TypeFormatter

  lemma SomeActionTail(s: string)
    requires s == "someAction"
    ensures SnakeFrom(s, 5, true, false) == "ction" + SnakeFrom(s, 10, true, false)
  {
    LowerStep(s, 9);
    LowerStep(s, 8);
    LowerStep(s, 7);
    LowerStep(s, 6);
    LowerStep(s, 5);
  }

  lemma SomeActionJoint(s: string)
    requires s == "someAction"
    ensures SnakeFrom(s, 1, true, false) == "ome_a" + SnakeFrom(s, 5, true, false)
  {
    BoundaryStep(s, 4);
    LowerStep(s, 3);
    LowerStep(s, 2);
    LowerStep(s, 1);
    StartStep(s);
  }

  lemma SomeActionHead(s: string)
    requires s == "someAction"
    ensures SnakeFrom(s, 0, false, false) == "some_a" + SnakeFrom(s, 5, true, false)
  {
    SomeActionJoint(s);
    StartStep(s);
  }

  lemma SnakeSomeAction(s: string)
    requires s == "someAction"
    ensures SnakeCase(s) == "some_action"
  {
    SomeActionTail(s);
    SomeActionHead(s);
  }

  lemma MyOtherActionTail(s: string)
    requires s == "myOtherAction"
    ensures SnakeFrom(s, 8, true, false) == "ction" + SnakeFrom(s, 13, true, false)
  {
    LowerStep(s, 12);
    LowerStep(s, 11);
    LowerStep(s, 10);
    LowerStep(s, 9);
    LowerStep(s, 8);
  }

  lemma MyOtherActionJoint(s: string)
    requires s == "myOtherAction"
    ensures SnakeFrom(s, 6, true, false) == "r_a" + SnakeFrom(s, 8, true, false)
  {
    BoundaryStep(s, 7);
    LowerStep(s, 6);
  }

  lemma MyOtherActionMiddle(s: string)
    requires s == "myOtherAction"
    ensures SnakeFrom(s, 3, true, false) == "ther_a" + SnakeFrom(s, 8, true, false)
  {
    MyOtherActionJoint(s);
    LowerStep(s, 5);
    LowerStep(s, 4);
    LowerStep(s, 3);
  }

  lemma MyOtherActionHead(s: string)
    requires s == "myOtherAction"
    ensures SnakeFrom(s, 0, false, false) == "my_o" + SnakeFrom(s, 3, true, false)
  {
    BoundaryStep(s, 2);
    LowerStep(s, 1);
    StartStep(s);
  }

  lemma SnakeMyOtherAction(s: string)
    requires s == "myOtherAction"
    ensures SnakeCase(s) == "my_other_action"
  {
    MyOtherActionTail(s);
    MyOtherActionMiddle(s);
    MyOtherActionHead(s);
  }

  lemma SnakePre(s: string)
    requires s == "pre"
    ensures SnakeCase(s) == s
  {
    LowerStep(s, 2);
    LowerStep(s, 1);
    StartStep(s);
  }

  lemma SomeActionSegment(name: string)
    requires name == "someAction"
    ensures Segment(name) == "SOME_ACTION"
  {
    SnakeSomeAction(name);
    assert UpperCase("some_action") == "SOME_ACTION";
  }

  lemma MyOtherActionSegment(name: string)
    requires name == "myOtherAction"
    ensures Segment(name) == "MY_OTHER_ACTION"
  {
    SnakeMyOtherAction(name);
    assert UpperCase("my_other_action") == "MY_OTHER_ACTION";
  }

  lemma PreSegment(prefix: string)
    requires prefix == "pre"
    ensures Segment(prefix) == "PRE"
  {
    SnakePre(prefix);
    assert UpperCase("pre") == "PRE";
  }

  /** test/actions.js:11 and test/helpers.js:16. */
  lemma SomeActionType(name: string)
    requires name == "someAction"
    ensures TypeFormat(name, None) == "SOME_ACTION"
  {
    SomeActionSegment(name);
    AbsentPrefixIsEmpty(name);
  }

  /** test/actions.js:12 and test/helpers.js:17. */
  lemma MyOtherActionType(name: string)
    requires name == "myOtherAction"
    ensures TypeFormat(name, None) == "MY_OTHER_ACTION"
  {
    MyOtherActionSegment(name);
    AbsentPrefixIsEmpty(name);
  }

  /** test/helpers.js:30 and 40: the prefix "pre". */
  lemma PrefixedSomeActionType(name: string, prefix: string)
    requires name == "someAction" && prefix == "pre"
    ensures TypeFormat(name, Some(prefix)) == "PRE_SOME_ACTION"
  {
    SomeActionSegment(name);
    PreSegment(prefix);
    PrefixedType(name, prefix);
  }
}
