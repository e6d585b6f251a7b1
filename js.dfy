/**
 * The pieces of JavaScript semantics the handlers rely on: properties of a
 * parsed JSON body that may be undefined or null, truthiness of strings,
 * `String.prototype.split(' ')` and `String.prototype.toUpperCase()`.
 */
module Js {
  import opened Common

  /**
   * A property of a parsed request body: `undefined` (the key is missing),
   * `null`, or a value.
   */
  datatype Field<T> = Absent | Null | Given(value: T)

  /** JavaScript truthiness of a string-valued body property: a non-empty string. */
  predicate Truthy(f: Field<string>)
  {
    f.Given? && f.value != ""
  }

  /** Truthiness of a header or query-string value, which is a string or missing. */
  predicate TruthyOpt(o: Option<string>)
  {
    o.Some? && o.value != ""
  }

  /** `parts.join(' ')`. */
  function Join(parts: seq<string>): string
  {
    if |parts| == 0 then ""
    else if |parts| == 1 then parts[0]
    else parts[0] + " " + Join(parts[1..])
  }

  /**
   * `s.split(' ')`: the pieces between single spaces, so two adjacent
   * spaces give an empty piece and the result is never empty.
   */
  function Split(s: string): (parts: seq<string>)
    ensures |parts| >= 1
    ensures forall i :: 0 <= i < |parts| ==> ' ' !in parts[i]
    ensures Join(parts) == s
    decreases |s|
  {
    if s == [] then [""]
    else if s[0] == ' ' then
      var rest := Split(s[1..]);
      assert s == [' '] + s[1..];
      [""] + rest
    else
      var rest := Split(s[1..]);
      var parts := [[s[0]] + rest[0]] + rest[1..];
      assert s == [s[0]] + s[1..];
      assert forall i :: 1 <= i < |parts| ==> parts[i] == rest[i];
      assert ' ' !in parts[0] by {
        assert forall k :: 1 <= k < |parts[0]| ==> parts[0][k] == rest[0][k - 1];
      }
      assert Join(parts) == s by {
        if |rest| > 1 {
          assert parts[1..] == rest[1..];
        }
      }
      parts
  }

  /** Splitting undoes joining, as long as no piece contains the separator. */
  lemma {:induction false} SplitJoin(parts: seq<string>)
    requires |parts| >= 1
    requires forall i :: 0 <= i < |parts| ==> ' ' !in parts[i]
    ensures Split(Join(parts)) == parts
    decreases |parts|, |parts[0]|
  {
    if |parts| == 1 {
      SplitNoSpace(parts[0]);
    } else if parts[0] == "" {
      var s := Join(parts);
      assert s == [' '] + Join(parts[1..]);
      SplitJoin(parts[1..]);
      assert s[1..] == Join(parts[1..]);
    } else {
      var s := Join(parts);
      var c := parts[0][0];
      var shorter := [parts[0][1..]] + parts[1..];
      assert s == [c] + Join(shorter) by {
        assert parts[0] == [c] + parts[0][1..];
        assert shorter[1..] == parts[1..];
      }
      assert ' ' !in shorter[0] by {
        assert forall k :: 0 <= k < |shorter[0]| ==> shorter[0][k] == parts[0][k + 1];
      }
      SplitJoin(shorter);
      assert s[1..] == Join(shorter);
      assert c != ' ';
      assert Split(s) == [[c] + shorter[0]] + shorter[1..];
      assert [c] + shorter[0] == parts[0];
      assert shorter[1..] == parts[1..];
    }
  }

  /** A string without spaces splits into itself. */
  lemma SplitNoSpace(s: string)
    requires ' ' !in s
    ensures Split(s) == [s]
  {
  }

  /** LATIN SMALL LETTER LONG S, whose upper case is `S`. */
  const LongS: char := 0x17F as char

  /**
   * `c.toUpperCase()` for one character: the ASCII letters and the long s
   * are mapped; every other character is kept.
   */
  function UpperChar(c: char): char
  {
    if 'a' <= c <= 'z' then (c as int - 32) as char
    else if c == LongS then 'S'
    else c
  }

  /** `s.toUpperCase()`, character by character, with the mapping of `UpperChar`. */
  function ToUpper(s: string): string
  {
    seq(|s|, i requires 0 <= i < |s| => UpperChar(s[i]))
  }

  /** The spellings whose upper-case form is "ASC" are exactly the case variants of "asc", the long s included. */
  lemma UpperIsAsc(s: string)
    ensures ToUpper(s) == "ASC" <==>
      |s| == 3 && s[0] in "aA" && s[1] in "sS" + [LongS] && s[2] in "cC"
  {
    if ToUpper(s) == "ASC" {
      assert |s| == 3;
      assert ToUpper(s)[0] == UpperChar(s[0]) && ToUpper(s)[1] == UpperChar(s[1]) && ToUpper(s)[2] == UpperChar(s[2]);
      assert UpperChar(s[0]) == 'A' && UpperChar(s[1]) == 'S' && UpperChar(s[2]) == 'C';
    }
    if |s| == 3 && s[0] in "aA" && s[1] in "sS" + [LongS] && s[2] in "cC" {
      assert ToUpper(s) == [UpperChar(s[0]), UpperChar(s[1]), UpperChar(s[2])];
    }
  }
}
