/**
 * The admin dashboard's `getStatusLabel`: split a status on `-`, upper-case
 * the first character of every piece, and join the pieces with a space.
 */
module Dashboard {
  import Text

  /**
   * `word.charAt(0).toUpperCase() + word.slice(1)`: the same length, the
   * first character upper-cased and every other character unchanged.
   */
  function Capitalize(word: string): (r: string)
    ensures |r| == |word|
    ensures word != "" ==> r[0] == Text.UpperChar(word[0]) && r[1..] == word[1..]
  {
    if word == "" then "" else [Text.UpperChar(word[0])] + word[1..]
  }

  function CapitalizeAll(words: seq<string>): (r: seq<string>)
    ensures |r| == |words|
    ensures forall i :: 0 <= i < |words| ==> r[i] == Capitalize(words[i])
  {
    seq(|words|, i requires 0 <= i < |words| => Capitalize(words[i]))
  }

  /**
   * `getStatusLabel(status)`. The label is as long as the status: each `-`
   * becomes one space (`StatusLabelCharacterised` states every character).
   */
  function StatusLabel(status: string): (r: string)
    ensures |r| == |status|
  {
    var pieces := Text.Split(status, '-');
    assert [Capitalize(pieces[0])] + CapitalizeAll(pieces[1..]) == CapitalizeAll(pieces);
    JoinPiecesIsRelabel(status, true);
    Text.Join(CapitalizeAll(pieces), " ")
  }

  /**
   * What `StatusLabel` does to the character at `i`: a `-` becomes a space,
   * the first character of a piece is upper-cased, every other character
   * stays as it is.
   */
  function LabelChar(status: string, i: nat): char
    requires i < |status|
  {
    if status[i] == '-' then ' '
    else if i == 0 || status[i - 1] == '-' then Text.UpperChar(status[i])
    else status[i]
  }

  /**
   * A character-at-a-time reading of the label, used to prove the
   * characterisation: `atStart` says whether `s` begins a piece.
   */
  function Relabel(s: string, atStart: bool): (r: string)
    ensures |r| == |s|
    decreases |s|
  {
    if s == [] then []
    else if s[0] == '-' then [' '] + Relabel(s[1..], true)
    else [if atStart then Text.UpperChar(s[0]) else s[0]] + Relabel(s[1..], false)
  }

  /** The label with its first piece capitalised or not. */
  function JoinPieces(pieces: seq<string>, capitalizeFirst: bool): string
    requires |pieces| >= 1
  {
    Text.Join([if capitalizeFirst then Capitalize(pieces[0]) else pieces[0]] +
              CapitalizeAll(pieces[1..]), " ")
  }

  lemma JoinCons(head: string, tail: seq<string>, sep: string)
    requires |tail| >= 1
    ensures Text.Join([head] + tail, sep) == head + sep + Text.Join(tail, sep)
  {
    assert ([head] + tail)[1..] == tail;
  }

  lemma {:induction false} JoinPiecesIsRelabel(s: string, capitalizeFirst: bool)
    ensures JoinPieces(Text.Split(s, '-'), capitalizeFirst) == Relabel(s, capitalizeFirst)
    decreases |s|
  {
    if s != [] {
      var rest := Text.Split(s[1..], '-');
      JoinPiecesIsRelabel(s[1..], s[0] == '-');
      var tail := CapitalizeAll(rest[1..]);
      if s[0] == '-' {
        var pieces := [""] + rest;
        assert pieces[1..] == rest;
        assert CapitalizeAll(rest) == [Capitalize(rest[0])] + tail;
        JoinCons("", CapitalizeAll(rest), " ");
      } else {
        var first := [s[0]] + rest[0];
        var pieces := [first] + rest[1..];
        assert pieces[1..] == rest[1..];
        var c := if capitalizeFirst then Text.UpperChar(s[0]) else s[0];
        assert (if capitalizeFirst then Capitalize(first) else first) == [c] + rest[0];
        if |tail| == 0 {
          assert Text.Join([[c] + rest[0]] + tail, " ") == [c] + rest[0];
        } else {
          JoinCons([c] + rest[0], tail, " ");
          JoinCons(rest[0], tail, " ");
        }
      }
    }
  }

  lemma {:induction false} RelabelAt(s: string, atStart: bool, i: nat)
    requires i < |s|
    ensures Relabel(s, atStart)[i] ==
      if s[i] == '-' then ' '
      else if (i == 0 && atStart) || (i > 0 && s[i - 1] == '-') then Text.UpperChar(s[i])
      else s[i]
    decreases |s|
  {
    if i > 0 {
      RelabelAt(s[1..], s[0] == '-', i - 1);
    }
  }

  /**
   * The label has the length of the status, and each of its characters is
   * `LabelChar` of the status at the same position.
   */
  lemma StatusLabelCharacterised(status: string)
    ensures forall i :: 0 <= i < |status| ==> StatusLabel(status)[i] == LabelChar(status, i)
  {
    var pieces := Text.Split(status, '-');
    assert [Capitalize(pieces[0])] + CapitalizeAll(pieces[1..]) == CapitalizeAll(pieces);
    JoinPiecesIsRelabel(status, true);
    forall i | 0 <= i < |status| ensures StatusLabel(status)[i] == LabelChar(status, i) {
      RelabelAt(status, true, i);
    }
  }

  /** A label never contains `-`. */
  lemma StatusLabelHasNoHyphen(status: string)
    ensures '-' !in StatusLabel(status)
  {
    StatusLabelCharacterised(status);
    forall i | 0 <= i < |status| ensures StatusLabel(status)[i] != '-' {
    }
  }

  /** A status without `-` is labelled by upper-casing its first character. */
  lemma {:induction false} LabelOfSingleWord(status: string)
    requires |status| > 0 && '-' !in status
    ensures StatusLabel(status) == [Text.UpperChar(status[0])] + status[1..]
  {
    StatusLabelCharacterised(status);
    var expected := [Text.UpperChar(status[0])] + status[1..];
    forall i | 0 <= i < |status| ensures StatusLabel(status)[i] == expected[i] {
      assert status[i] != '-';
      if i > 0 {
        assert status[i - 1] != '-';
      }
    }
  }

  /** A status `first-second` of two words is labelled `First Second`. */
  lemma {:induction false} LabelOfTwoWords(first: string, second: string)
    requires |first| > 0 && '-' !in first && |second| > 0 && '-' !in second
    ensures StatusLabel(first + "-" + second) == Capitalize(first) + " " + Capitalize(second)
  {
    Text.SplitNoSeparator(second, '-');
    Text.SplitAtFirst(first, second, '-');
    assert first + "-" + second == first + ['-'] + second;
    var caps := CapitalizeAll([first, second]);
    assert caps == [Capitalize(first), Capitalize(second)];
    assert caps[1..] == [Capitalize(second)];
  }

  /** The declared status `in-review` is labelled `In Review`. */
  lemma InReviewLabel()
    ensures StatusLabel("in-review") == "In Review"
  {
    var first, second := "in", "review";
    LabelOfTwoWords(first, second);
    assert first + "-" + second == "in-review";
    assert Capitalize(first) + " " + Capitalize(second) == "In Review";
  }

  /** The declared status `pending` is labelled `Pending`. */
  lemma PendingLabel()
    ensures StatusLabel("pending") == "Pending"
  {
    CapitalizedWord("pending", "Pending");
  }

  /** The declared status `approved` is labelled `Approved`. */
  lemma ApprovedLabel()
    ensures StatusLabel("approved") == "Approved"
  {
    CapitalizedWord("approved", "Approved");
  }

  /** The declared status `rejected` is labelled `Rejected`. */
  lemma RejectedLabel()
    ensures StatusLabel("rejected") == "Rejected"
  {
    CapitalizedWord("rejected", "Rejected");
  }

  /** `LabelOfSingleWord` with the expected label given as a value. */
  lemma CapitalizedWord(status: string, caption: string)
    requires |status| > 0 && '-' !in status
    requires caption == [Text.UpperChar(status[0])] + status[1..]
    ensures StatusLabel(status) == caption
  {
    LabelOfSingleWord(status);
  }
}
