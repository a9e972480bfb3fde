/** The FAQ page: four sections of questions, a set of open question
    indices that each click toggles, and a running counter that numbers the
    questions 0, 1, 2, ... across all sections while rendering. */
module Faq {

  /** A question by its translation keys. */
  datatype Question = Question(q: string, a: string)

  datatype Section = Section(title: string, questions: seq<Question>)

  /** The page's sections. There is no `faq.q8`. */
  const FaqSections: seq<Section> := [
    Section("faq.generalTitle", [
      Question("faq.q1", "faq.a1"),
      Question("faq.q2", "faq.a2"),
      Question("faq.q3", "faq.a3"),
      Question("faq.q4", "faq.a4")]),
    Section("faq.productTitle", [
      Question("faq.q5", "faq.a5"),
      Question("faq.q6", "faq.a6"),
      Question("faq.q7", "faq.a7")]),
    Section("faq.orderingTitle", [
      Question("faq.q9", "faq.a9"),
      Question("faq.q10", "faq.a10"),
      Question("faq.q11", "faq.a11"),
      Question("faq.q12", "faq.a12")]),
    Section("faq.sustainabilityTitle", [
      Question("faq.q13", "faq.a13"),
      Question("faq.q14", "faq.a14"),
      Question("faq.q15", "faq.a15")])
  ]

  // ------------------------------------------------------------ open set

  /** The open set after clicking question `index`. */
  function Toggled(open: set<int>, index: int): (next: set<int>)
    ensures index in next <==> index !in open
    ensures forall j :: j != index ==> (j in next <==> j in open)
  {
    if index in open then open - {index} else open + {index}
  }

  /** Clicking the same question twice restores the open set. */
  lemma ToggleTwice(open: set<int>, index: int)
    ensures Toggled(Toggled(open, index), index) == open
  {
  }

  class FaqPage {
    var openQuestions: set<int>

    /** The first question starts open. */
    constructor ()
      ensures openQuestions == {0}
    {
      openQuestions := {0};
    }

    /** `toggleQuestion(index)`: build a new set from a copy of the current
        one and install it. */
    method ToggleQuestion(index: int)
      modifies this
      ensures openQuestions == Toggled(old(openQuestions), index)
    {
      var newOpenQuestions := openQuestions;
      if index in newOpenQuestions {
        newOpenQuestions := newOpenQuestions - {index};
      } else {
        newOpenQuestions := newOpenQuestions + {index};
      }
      openQuestions := newOpenQuestions;
    }
  }

  // ------------------------------------------------------------ numbering

  /** The number of questions in the sections before section `s`: none
      before the first, and at least as many as any earlier section holds. */
  function Offset(sections: seq<Section>, s: nat): (o: nat)
    requires s <= |sections|
    ensures s == 0 ==> o == 0
    ensures forall t :: 0 <= t < s ==> |sections[t].questions| <= o
  {
    if s == 0 then 0 else Offset(sections, s - 1) + |sections[s - 1].questions|
  }

  /** Later sections start no earlier than the end of earlier ones. */
  lemma {:induction false} OffsetGrows(sections: seq<Section>, s: nat, t: nat)
    requires s < t <= |sections|
    ensures Offset(sections, s) + |sections[s].questions| <= Offset(sections, t)
    decreases t - s
  {
    if s + 1 < t {
      OffsetGrows(sections, s + 1, t);
    }
  }

  /** One rendered question: its index, its keys, and whether it is open. */
  datatype Row = Row(index: int, question: Question, isOpen: bool)

  /** Render the sections in order, numbering questions with a counter that
      starts at 0 and is incremented once per question. */
  method RenderQuestions(sections: seq<Section>, open: set<int>) returns (rows: seq<seq<Row>>)
    ensures |rows| == |sections|
    ensures forall s :: 0 <= s < |rows| ==> |rows[s]| == |sections[s].questions|
    ensures forall s, k :: 0 <= s < |rows| && 0 <= k < |rows[s]| ==>
              rows[s][k] == Row(Offset(sections, s) + k, sections[s].questions[k],
                                Offset(sections, s) + k in open)
  {
    var questionIndex := 0;
    rows := [];
    for s := 0 to |sections|
      invariant |rows| == s
      invariant questionIndex == Offset(sections, s)
      invariant forall s', k :: 0 <= s' < s && 0 <= k < |sections[s'].questions| ==>
                  |rows[s']| == |sections[s'].questions| &&
                  rows[s'][k] == Row(Offset(sections, s') + k, sections[s'].questions[k],
                                     Offset(sections, s') + k in open)
      invariant forall s' :: 0 <= s' < s ==> |rows[s']| == |sections[s'].questions|
    {
      var row := [];
      for k := 0 to |sections[s].questions|
        invariant |row| == k
        invariant questionIndex == Offset(sections, s) + k
        invariant forall k' :: 0 <= k' < k ==>
                    row[k'] == Row(Offset(sections, s) + k', sections[s].questions[k'],
                                   Offset(sections, s) + k' in open)
      {
        var currentIndex := questionIndex;
        questionIndex := questionIndex + 1;
        var isOpen := currentIndex in open;
        row := row + [Row(currentIndex, sections[s].questions[k], isOpen)];
      }
      rows := rows + [row];
    }
  }

  /** Distinct positions get distinct indices. */
  lemma IndicesAreDistinct(sections: seq<Section>, s1: nat, k1: nat, s2: nat, k2: nat)
    requires s1 < |sections| && k1 < |sections[s1].questions|
    requires s2 < |sections| && k2 < |sections[s2].questions|
    requires (s1, k1) != (s2, k2)
    ensures Offset(sections, s1) + k1 != Offset(sections, s2) + k2
  {
    if s1 < s2 {
      OffsetGrows(sections, s1, s2);
    } else if s2 < s1 {
      OffsetGrows(sections, s2, s1);
    }
  }

  /** The indices are exactly 0 .. total - 1: every index below the total
      is the index of some position. */
  lemma {:induction false} IndicesCoverRange(sections: seq<Section>, index: nat) returns (s: nat, k: nat)
    requires index < Offset(sections, |sections|)
    ensures s < |sections| && k < |sections[s].questions|
    ensures Offset(sections, s) + k == index
    decreases |sections|
  {
    var n := |sections| - 1;
    if index >= Offset(sections, n) {
      s, k := n, index - Offset(sections, n);
    } else {
      var front := sections[..n];
      OffsetOfPrefix(sections, n);
      s, k := IndicesCoverRange(front, index);
      OffsetPrefixAgrees(sections, n, s);
    }
  }

  lemma {:induction false} OffsetOfPrefix(sections: seq<Section>, n: nat)
    requires n <= |sections|
    ensures Offset(sections[..n], n) == Offset(sections, n)
  {
    OffsetPrefixAgrees(sections, n, n);
  }

  /** The offset of section `s` depends only on the sections before it. */
  lemma {:induction false} OffsetPrefixAgrees(sections: seq<Section>, n: nat, s: nat)
    requires s <= n <= |sections|
    ensures Offset(sections[..n], s) == Offset(sections, s)
  {
    if s > 0 {
      OffsetPrefixAgrees(sections, n, s - 1);
      assert sections[..n][s - 1] == sections[s - 1];
    }
  }

  /** On this page the sections start at 0, 4, 7 and 11: fourteen questions,
      numbered without a gap where `faq.q8` is missing. */
  lemma FaqNumbering()
    ensures Offset(FaqSections, 0) == 0 && Offset(FaqSections, 1) == 4
    ensures Offset(FaqSections, 2) == 7 && Offset(FaqSections, 3) == 11
    ensures Offset(FaqSections, 4) == 14
    ensures forall s, k :: 0 <= s < 4 && 0 <= k < |FaqSections[s].questions| ==>
              FaqSections[s].questions[k].q != "faq.q8"
  {
  }

  /** Clicking a rendered question flips that question's open state and no
      other's, because the indices are distinct. */
  lemma ClickFlipsOnlyThatQuestion(sections: seq<Section>, open: set<int>,
                                   s1: nat, k1: nat, s2: nat, k2: nat)
    requires s1 < |sections| && k1 < |sections[s1].questions|
    requires s2 < |sections| && k2 < |sections[s2].questions|
    ensures var clicked := Toggled(open, Offset(sections, s1) + k1);
            var index := Offset(sections, s2) + k2;
            (index in clicked <==> index in open) <==> (s1, k1) != (s2, k2)
  {
    if (s1, k1) != (s2, k2) {
      IndicesAreDistinct(sections, s1, k1, s2, k2);
    }
  }
}
