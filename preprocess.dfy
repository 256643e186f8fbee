/** The action-label parser of imitation-learning/utils/preprocess.py, which
    turns a recorded command string into a unit id and a training label. */
module Preprocess {
  import opened LuxBasics

  /** Python's `s.split(sep)` with an explicit separator: every separator
      ends a piece, and empty pieces are kept. */
  function Split(s: string, sep: char): (r: seq<string>)
    ensures |r| >= 1
    ensures forall j :: 0 <= j < |r| ==> sep !in r[j]
  {
    if s == [] then [""]
    else if s[0] == sep then [""] + Split(s[1..], sep)
    else
      var rest := Split(s[1..], sep);
      [[s[0]] + rest[0]] + rest[1..]
  }

  /** `sep.join(words)`. */
  function Join(words: seq<string>, sep: char): string
    requires |words| >= 1
  {
    if |words| == 1 then words[0] else words[0] + [sep] + Join(words[1..], sep)
  }

  /** Splitting undoes joining when no word holds the separator. */
  lemma {:induction false} SplitJoin(words: seq<string>, sep: char)
    requires |words| >= 1 && forall j :: 0 <= j < |words| ==> sep !in words[j]
    ensures Split(Join(words, sep), sep) == words
  {
    if |words| == 1 {
      SplitWord(words[0], sep);
    } else {
      SplitJoin(words[1..], sep);
      SplitPrefix(words[0], Join(words[1..], sep), sep);
    }
  }

  /** A word without the separator splits into itself. */
  lemma {:induction false} SplitWord(w: string, sep: char)
    requires sep !in w
    ensures Split(w, sep) == [w]
  {
    if w != [] {
      SplitWord(w[1..], sep);
      assert [w[0]] + w[1..] == w;
    }
  }

  /** A separator-free word in front of a separator becomes the first piece. */
  lemma {:induction false} SplitPrefix(w: string, rest: string, sep: char)
    requires sep !in w
    ensures Split(w + [sep] + rest, sep) == [w] + Split(rest, sep)
  {
    if w == [] {
      assert w + [sep] + rest == [sep] + rest;
      assert ([sep] + rest)[1..] == rest;
    } else {
      SplitPrefix(w[1..], rest, sep);
      assert (w + [sep] + rest)[1..] == w[1..] + [sep] + rest;
      assert [w[0]] + w[1..] == w;
    }
  }

  /** Joining undoes splitting: the pieces and separators give back the string. */
  lemma {:induction false} JoinSplit(s: string, sep: char)
    ensures Join(Split(s, sep), sep) == s
  {
    if s != [] {
      JoinSplit(s[1..], sep);
      var rest := Split(s[1..], sep);
      if s[0] == sep {
        assert [s[0]] + s[1..] == s;
      } else if |rest| == 1 {
        assert [s[0]] + rest[0] == s;
      } else {
        assert rest == [rest[0]] + rest[1..];
        assert ([[s[0]] + rest[0]] + rest[1..])[1..] == rest[1..];
        assert [s[0]] + s[1..] == s;
      }
    }
  }

  /** What goes wrong in `to_label`: a missing token raises IndexError, an
      unknown direction letter raises KeyError. */
  datatype LabelError = IndexError | KeyError

  datatype Outcome<T> = Ok(value: T) | Fail(error: LabelError)

  /** The label of a move: `{'c': None, 'n': 0, 's': 1, 'w': 2, 'e': 3}`. */
  function MoveLabel(letter: string): Outcome<Option<nat>> {
    if letter == "c" then Ok(None)
    else if letter == "n" then Ok(Some(0))
    else if letter == "s" then Ok(Some(1))
    else if letter == "w" then Ok(Some(2))
    else if letter == "e" then Ok(Some(3))
    else Fail(KeyError)
  }

  /** `to_label`: the unit id is the second token; a move is labelled by its
      direction, a city build by 4, anything else by no label. */
  function ToLabel(action: string): (r: Outcome<(UnitId, Option<nat>)>)
    ensures r.Ok? ==> |Split(action, ' ')| >= 2 && r.value.0 == Split(action, ' ')[1]
    ensures r.Ok? && r.value.1.Some? ==> r.value.1.value <= 4
  {
    var strs := Split(action, ' ');
    if |strs| < 2 then Fail(IndexError)
    else
      var unitId := strs[1];
      if strs[0] == "m" then
        if |strs| < 3 then Fail(IndexError)
        else match MoveLabel(strs[2])
          case Ok(moveLabel) => Ok((unitId, moveLabel))
          case Fail(e) => Fail(e)
      else if strs[0] == "bcity" then Ok((unitId, Some(4)))
      else Ok((unitId, None))
  }

  /** The label a move in direction `d` should get. */
  function DirectionLabel(d: Direction): Option<nat> {
    match d
    case Center => None
    case North => Some(0)
    case South => Some(1)
    case West => Some(2)
    case East => Some(3)
  }

  /** Parsing the move command a unit emits gives back the unit and the
      direction's label; distinct directions other than staying put get
      distinct labels. */
  lemma MoveRoundTrip(id: UnitId, d: Direction)
    requires ' ' !in id
    ensures ToLabel(MoveCommand(id, d)) == Ok((id, DirectionLabel(d)))
    ensures forall e: Direction :: e != d && DirectionLabel(d).Some? ==> DirectionLabel(e) != DirectionLabel(d)
  {
    var words := ["m", id, [DirectionChar(d)]];
    assert Join(words, ' ') == MoveCommand(id, d) by {
      assert Join(words[2..], ' ') == [DirectionChar(d)];
      assert Join(words[1..], ' ') == id + [' '] + [DirectionChar(d)];
    }
    assert DirectionChar(d) != ' ';
    SplitJoin(words, ' ');
  }

  /** Parsing a city-build command gives back the unit and label 4. */
  lemma BuildCityRoundTrip(id: UnitId)
    requires ' ' !in id
    ensures ToLabel(BuildCityCommand(id)) == Ok((id, Some(4)))
  {
    var words := ["bcity", id];
    assert Join(words, ' ') == BuildCityCommand(id) by {
      assert Join(words[1..], ' ') == id;
    }
    SplitJoin(words, ' ');
  }

  /** When `to_label` fails and when it gives a label: it fails exactly on a
      command with fewer than two tokens or a move without a known direction
      letter; otherwise the label is 4 exactly for `bcity`, a number below 4
      only for a move, and absent for `m c` and every other command word. */
  lemma ToLabelCases(action: string)
    ensures var strs := Split(action, ' ');
            var r := ToLabel(action);
            && (r.Fail? <==> |strs| < 2 || (strs[0] == "m" && (|strs| < 3 || strs[2] !in {"c", "n", "s", "w", "e"})))
            && (r.Fail? && |strs| >= 2 && strs[0] == "m" && |strs| >= 3 ==> r.error == KeyError)
            && (r.Ok? ==> (r.value.1 == Some(4) <==> strs[0] == "bcity"))
            && (r.Ok? && r.value.1.Some? && r.value.1.value < 4 ==> strs[0] == "m")
            && (r.Ok? && strs[0] != "m" && strs[0] != "bcity" ==> r.value.1 == None)
  {
  }

  /** `u.split(' ')[0] == 'r'`: the update is a resource report. */
  predicate IsResourceUpdate(u: string) {
    Split(u, ' ')[0] == "r"
  }

  /** A resource report is "r" alone or "r" followed by a space. */
  lemma ResourceUpdateForm(u: string)
    ensures IsResourceUpdate(u) <==> u == "r" || (|u| >= 2 && u[..2] == "r ")
  {
    if |u| >= 2 && u[..2] == "r " {
      SplitPrefix("r", u[2..], ' ');
      assert u == "r" + [' '] + u[2..];
    } else if u == "r" {
      SplitWord("r", ' ');
    } else if IsResourceUpdate(u) {
      JoinSplit(u, ' ');
      assert false;
    }
  }

  /** `depleted_resources`: the observation has no resource report left. */
  function DepletedResources(updates: seq<string>): (r: bool)
    ensures r <==> forall j :: 0 <= j < |updates| ==> !IsResourceUpdate(updates[j])
  {
    if updates == [] then true
    else if IsResourceUpdate(updates[0]) then false
    else DepletedResources(updates[1..])
  }
}
