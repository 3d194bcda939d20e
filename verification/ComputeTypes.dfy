// List membership as a CloudFormation condition (cdk/scripts/generate-bootstrap-template.ts).
// There is no containment test, so the list is joined without a separator, split on the wanted
// name, and the first part compared with the whole.
module ComputeTypes {
  const AGENTCORE := "agentcore"
  const ECS := "ecs"
  const LAMBDA_MICROVM := "lambda-microvm"

  predicate IsComputeType(name: string) {
    name == AGENTCORE || name == ECS || name == LAMBDA_MICROVM
  }

  predicate AreComputeTypes(names: seq<string>) {
    forall name :: name in names ==> IsComputeType(name)
  }

  // Fn::Join with an empty separator.
  function Joined(names: seq<string>): string {
    if names == [] then "" else names[0] + Joined(names[1..])
  }

  // Fn::Split: the text between the occurrences of the separator, found from the left.
  function Split(separator: string, s: string): (parts: seq<string>)
    requires separator != ""
    ensures parts != []
    decreases |s|
  {
    if s == "" then [""]
    else if separator <= s then [""] + Split(separator, s[|separator|..])
    else
      var rest := Split(separator, s[1..]);
      [[s[0]] + rest[0]] + rest[1..]
  }

  // includesComputeType
  predicate IncludesComputeType(needle: string, names: seq<string>)
    requires needle != ""
  {
    Split(needle, Joined(names))[0] != Joined(names)
  }

  ghost predicate OccursAt(needle: string, s: string, i: nat) {
    i <= |s| && needle <= s[i..]
  }

  ghost predicate Occurs(needle: string, s: string) {
    exists i: nat :: OccursAt(needle, s, i)
  }

  // The first part is the whole exactly when the separator does not occur.
  lemma {:induction false} SplitFinds(needle: string, s: string)
    requires needle != ""
    ensures Split(needle, s)[0] != s <==> Occurs(needle, s)
  {
    if s == "" {
    } else if needle <= s {
      assert s[0..] == s;
      assert OccursAt(needle, s, 0);
    } else {
      SplitFinds(needle, s[1..]);
      assert s == [s[0]] + s[1..];
      if Split(needle, s)[0] == s {
        assert Split(needle, s[1..])[0] == ([s[0]] + Split(needle, s[1..])[0])[1..];
      }
      if i: nat :| OccursAt(needle, s, i) {
        assert s[0..] == s;
        assert s[i..] == s[1..][i - 1..];
        assert OccursAt(needle, s[1..], i - 1);
      }
      if i: nat :| OccursAt(needle, s[1..], i) {
        assert s[1..][i..] == s[i + 1..];
        assert OccursAt(needle, s, i + 1);
      }
    }
  }

  lemma {:induction false} JoinedStart(names: seq<string>)
    requires AreComputeTypes(names)
    ensures Joined(names) == "" || Joined(names)[0] in "ael"
  {
    if names != [] {
      assert names[0] in names;
    }
  }

  // A name that begins inside a word is that word: two characters tell every other place apart,
  // also where the second one belongs to the next word.
  lemma {:induction false} NothingAcrossWords(needle: string, word: string, rest: string, i: nat)
    requires IsComputeType(needle) && IsComputeType(word) && (rest == "" || rest[0] in "ael")
    requires OccursAt(needle, word + rest, i) && i < |word|
    ensures needle == word
  {
    var s := word + rest;
    assert s[i..][0] == word[i] == needle[0];
    assert s[i..][1] == s[i + 1] == needle[1];
    assert i + 1 < |word| ==> s[i + 1] == word[i + 1];
    assert i + 1 == |word| ==> s[i + 1] == rest[0];
  }

  lemma {:induction false} OccursIffMember(needle: string, names: seq<string>)
    requires IsComputeType(needle) && AreComputeTypes(names)
    ensures needle in names <==> Occurs(needle, Joined(names))
  {
    if names != [] {
      hide IsComputeType;
      var word, tail := names[0], names[1..];
      var s := Joined(names);
      assert forall name :: name in tail ==> name in names;
      OccursIffMember(needle, tail);
      assert s[|word|..] == Joined(tail);
      if needle == word {
        assert s[0..] == s;
        assert OccursAt(needle, s, 0);
      }
      if i: nat :| OccursAt(needle, Joined(tail), i) {
        assert s[i + |word|..] == Joined(tail)[i..];
        assert OccursAt(needle, s, i + |word|);
      }
      if i: nat :| OccursAt(needle, s, i) {
        if i < |word| {
          JoinedStart(tail);
          NothingAcrossWords(needle, word, Joined(tail), i);
        } else {
          assert s[i..] == Joined(tail)[i - |word|..];
          assert OccursAt(needle, Joined(tail), i - |word|);
        }
      }
    }
  }

  // Over the three backends the condition is list membership, whatever the list's length and order.
  lemma {:induction false} ConditionIsMembership(needle: string, names: seq<string>)
    requires IsComputeType(needle) && AreComputeTypes(names)
    ensures IncludesComputeType(needle, names) <==> needle in names
  {
    assert |needle| > 0;
    hide Occurs, IsComputeType, AreComputeTypes, Split, Joined;
    SplitFinds(needle, Joined(names));
    OccursIffMember(needle, names);
  }

  // Matching on a prefix would not do: "lambda" is found in a list that does not name it.
  lemma {:induction false} PrefixIsNotMembership()
    ensures var names := [LAMBDA_MICROVM]; IncludesComputeType("lambda", names) && "lambda" !in names
  {
    assert Joined([LAMBDA_MICROVM]) == LAMBDA_MICROVM + Joined([]) == LAMBDA_MICROVM;
    assert "lambda" <= LAMBDA_MICROVM && |"lambda"| < |LAMBDA_MICROVM|;
    assert Split("lambda", LAMBDA_MICROVM)[0] == "";
  }
}
