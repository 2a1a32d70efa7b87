/**
 * The conversation helpers of `CourseChatbot`: the profile extracted from the
 * message history by keywords, and the text built from courses for the language
 * model. The language-model call itself is outside the model.
 */
module Chatbot {
  import opened Text
  import opened Catalogue

  datatype Message = Message(role: string, content: string)

  /** The `user_info` dictionary of `extract_user_info`. */
  datatype UserInfo = UserInfo(interests: string, background: string, skillLevel: string)

  const InterestKeywords: seq<string> := ["interested in", "want to learn", "goal", "passion"]
  const BackgroundKeywords: seq<string> := ["experience", "background", "worked as", "studied"]
  const LevelKeywords: seq<string> := ["beginner", "intermediate", "advanced", "new to", "expert"]

  /** `any(keyword in text for keyword in keys)` */
  predicate MentionsAny(text: string, keys: seq<string>)
  {
    exists i :: 0 <= i < |keys| && Contains(text, keys[i])
  }

  /** The level named by a lower-cased message, by the fixed precedence; `""` when none is named. */
  function LevelIn(text: string): string
  {
    if Contains(text, "beginner") || Contains(text, "new to") then "Beginner"
    else if Contains(text, "intermediate") then "Intermediate"
    else if Contains(text, "advanced") || Contains(text, "expert") then "Advanced"
    else ""
  }

  /** The outer keyword test and the inner precedence chain agree: some level is named exactly when a keyword occurs. */
  lemma LevelKeywordsAgree(text: string)
    ensures MentionsAny(text, LevelKeywords) <==> LevelIn(text) != ""
  {
    if LevelIn(text) != "" {
      if Contains(text, "beginner") { assert Contains(text, LevelKeywords[0]); }
      else if Contains(text, "new to") { assert Contains(text, LevelKeywords[3]); }
      else if Contains(text, "intermediate") { assert Contains(text, LevelKeywords[1]); }
      else if Contains(text, "advanced") { assert Contains(text, LevelKeywords[2]); }
      else { assert Contains(text, LevelKeywords[4]); }
    }
  }

  /** One iteration of the loop of `extract_user_info`. */
  function Step(info: UserInfo, m: Message): UserInfo
  {
    if m.role != "user" then info
    else
      var text := Lower(m.content);
      var interests := if MentionsAny(text, InterestKeywords) then info.interests + " " + m.content
                       else info.interests;
      var background := if MentionsAny(text, BackgroundKeywords) then info.background + " " + m.content
                        else info.background;
      var level := if MentionsAny(text, LevelKeywords) then
                     (if Contains(text, "beginner") || Contains(text, "new to") then "Beginner"
                      else if Contains(text, "intermediate") then "Intermediate"
                      else if Contains(text, "advanced") || Contains(text, "expert") then "Advanced"
                      else info.skillLevel)
                   else info.skillLevel;
      UserInfo(interests, background, level)
  }

  /** The profile after processing the whole history, oldest message first. */
  function Extracted(history: seq<Message>): UserInfo
  {
    if history == [] then UserInfo("", "", "")
    else Step(Extracted(history[..|history| - 1]), history[|history| - 1])
  }

  /** `extract_user_info` */
  method ExtractUserInfo(history: seq<Message>) returns (info: UserInfo)
    ensures info == Extracted(history)
  {
    info := UserInfo("", "", "");
    for i := 0 to |history|
      invariant info == Extracted(history[..i])
    {
      assert history[..i + 1][..i] == history[..i];
      var message := history[i];
      if message.role == "user" {
        var text := Lower(message.content);
        if MentionsAny(text, InterestKeywords) {
          info := info.(interests := info.interests + " " + message.content);
        }
        if MentionsAny(text, BackgroundKeywords) {
          info := info.(background := info.background + " " + message.content);
        }
        if MentionsAny(text, LevelKeywords) {
          if Contains(text, "beginner") || Contains(text, "new to") {
            info := info.(skillLevel := "Beginner");
          } else if Contains(text, "intermediate") {
            info := info.(skillLevel := "Intermediate");
          } else if Contains(text, "advanced") || Contains(text, "expert") {
            info := info.(skillLevel := "Advanced");
          }
        }
      }
    }
    assert history[..|history|] == history;
  }

  /** `" " + content` for every user message whose lower-cased text mentions one of `keys`, in order. */
  function Collected(history: seq<Message>, keys: seq<string>): string
  {
    if history == [] then ""
    else
      var m := history[|history| - 1];
      Collected(history[..|history| - 1], keys)
        + (if m.role == "user" && MentionsAny(Lower(m.content), keys) then " " + m.content else "")
  }

  /** The level of the latest user message that names one; `""` when none does. */
  function LastLevel(history: seq<Message>): string
  {
    if history == [] then ""
    else
      var m := history[|history| - 1];
      if m.role == "user" && LevelIn(Lower(m.content)) != "" then LevelIn(Lower(m.content))
      else LastLevel(history[..|history| - 1])
  }

  /** One step changes each field on its own terms. */
  lemma StepFields(info: UserInfo, m: Message)
    ensures Step(info, m).interests == info.interests
              + (if m.role == "user" && MentionsAny(Lower(m.content), InterestKeywords) then " " + m.content else "")
    ensures Step(info, m).background == info.background
              + (if m.role == "user" && MentionsAny(Lower(m.content), BackgroundKeywords) then " " + m.content else "")
    ensures Step(info, m).skillLevel
              == (if m.role == "user" && LevelIn(Lower(m.content)) != "" then LevelIn(Lower(m.content)) else info.skillLevel)
  {
    LevelKeywordsAgree(Lower(m.content));
  }

  // The three fields are independent: interests and background accumulate every
  // matching user message, original case kept, and the skill level is the one named
  // by the latest user message that names one.

  lemma {:induction false} ExtractedInterests(history: seq<Message>)
    ensures Extracted(history).interests == Collected(history, InterestKeywords)
  {
    if history != [] {
      ExtractedInterests(history[..|history| - 1]);
      StepFields(Extracted(history[..|history| - 1]), history[|history| - 1]);
    }
  }

  lemma {:induction false} ExtractedBackground(history: seq<Message>)
    ensures Extracted(history).background == Collected(history, BackgroundKeywords)
  {
    if history != [] {
      ExtractedBackground(history[..|history| - 1]);
      StepFields(Extracted(history[..|history| - 1]), history[|history| - 1]);
    }
  }

  lemma {:induction false} ExtractedLevel(history: seq<Message>)
    ensures Extracted(history).skillLevel == LastLevel(history)
  {
    if history != [] {
      ExtractedLevel(history[..|history| - 1]);
      StepFields(Extracted(history[..|history| - 1]), history[|history| - 1]);
    }
  }

  /** The user messages of a history, in order. */
  function UserMessages(history: seq<Message>): seq<Message>
  {
    if history == [] then []
    else
      UserMessages(history[..|history| - 1])
        + (if history[|history| - 1].role == "user" then [history[|history| - 1]] else [])
  }

  /** Messages from any role other than "user" never change the extracted profile. */
  lemma {:induction false} OnlyUserMessagesCount(history: seq<Message>)
    ensures Extracted(history) == Extracted(UserMessages(history))
  {
    if history != [] {
      var init, m := history[..|history| - 1], history[|history| - 1];
      OnlyUserMessagesCount(init);
      if m.role == "user" {
        var u := UserMessages(init) + [m];
        assert UserMessages(history) == u;
        assert u[..|u| - 1] == UserMessages(init);
        assert u[|u| - 1] == m;
        assert Extracted(u) == Step(Extracted(UserMessages(init)), m);
      } else {
        assert UserMessages(history) == UserMessages(init) + [];
        assert UserMessages(init) + [] == UserMessages(init);
        assert Extracted(history) == Extracted(init);
      }
    }
  }

  /** When no user message mentions any keyword, all three fields stay empty. */
  lemma {:induction false} NothingExtracted(history: seq<Message>)
    requires forall i :: 0 <= i < |history| && history[i].role == "user" ==>
               var text := Lower(history[i].content);
               !MentionsAny(text, InterestKeywords) && !MentionsAny(text, BackgroundKeywords)
               && !MentionsAny(text, LevelKeywords)
    ensures Extracted(history) == UserInfo("", "", "")
  {
    if history != [] {
      var init := history[..|history| - 1];
      assert forall i :: 0 <= i < |init| ==> init[i] == history[i];
      NothingExtracted(init);
    }
  }

  // ---------------------------------------------------------------------------
  // Text built from courses. `showRating` stands for `str()` of a rating.
  // ---------------------------------------------------------------------------

  const NoCoursesMessage: string := "No relevant courses found in the database."
  const ContextHeader: string := "Here are the relevant courses from our database:\n\n"

  /** The concatenation of a list of strings, `''.join(lines)`. */
  function Concat(lines: seq<string>): string
  {
    if lines == [] then "" else lines[0] + Concat(lines[1..])
  }

  /** The lines of the block of `create_context_from_courses` for the course numbered `i`. */
  function BlockLines(i: nat, c: Course, showRating: real -> string): seq<string>
  {
    [ NatToString(i) + ". " + c.title + "\n",
      "   Category: " + c.category + "\n",
      "   Difficulty: " + c.difficulty + "\n",
      "   Duration: " + c.duration + "\n",
      "   Skills: " + Join(", ", c.skills) + "\n",
      "   Prerequisites: " + c.prerequisites + "\n",
      "   Description: " + c.description + "\n",
      "   Provider: " + c.provider + "\n",
      "   Rating: " + showRating(c.rating) + "/5.0\n\n" ]
  }

  function Block(i: nat, c: Course, showRating: real -> string): string
  {
    Concat(BlockLines(i, c, showRating))
  }

  /** A block starts with its number, a dot and the course title on a line of its own. */
  lemma BlockStartsWithTitle(i: nat, c: Course, showRating: real -> string)
    ensures StartsWith(Block(i, c, showRating), NatToString(i) + ". " + c.title + "\n")
  {
    var lines := BlockLines(i, c, showRating);
    assert Block(i, c, showRating) == lines[0] + Concat(lines[1..]);
    assert (lines[0] + Concat(lines[1..]))[..|lines[0]|] == lines[0];
  }

  /** `render(first, xs[0]), render(first + 1, xs[1]), ...`: the items of `enumerate(xs, first)` rendered. */
  function Numbered<T>(xs: seq<T>, first: nat, render: (nat, T) -> string): (r: seq<string>)
    ensures |r| == |xs|
    ensures forall i :: 0 <= i < |xs| ==> r[i] == render(first + i, xs[i])
  {
    seq(|xs|, i requires 0 <= i < |xs| => render(first + i, xs[i]))
  }

  function BlockRenderer(showRating: real -> string): (nat, Course) -> string
  {
    (i: nat, c: Course) => Block(i, c, showRating)
  }

  function Context(cs: seq<Course>, showRating: real -> string): string
  {
    if cs == [] then NoCoursesMessage
    else ContextHeader + Concat(Numbered(cs, 1, BlockRenderer(showRating)))
  }

  lemma {:induction false} ConcatAppend(a: seq<string>, b: seq<string>)
    ensures Concat(a + b) == Concat(a) + Concat(b)
  {
    if a == [] {
      assert a + b == b;
    } else {
      assert (a + b)[1..] == a[1..] + b;
      ConcatAppend(a[1..], b);
    }
  }

  lemma NumberedSnoc<T>(xs: seq<T>, x: T, first: nat, render: (nat, T) -> string)
    ensures Concat(Numbered(xs + [x], first, render))
         == Concat(Numbered(xs, first, render)) + render(first + |xs|, x)
  {
    var r := render(first + |xs|, x);
    assert Numbered(xs + [x], first, render) == Numbered(xs, first, render) + [r];
    ConcatAppend(Numbered(xs, first, render), [r]);
    assert Concat([r]) == r by { assert [r][1..] == []; }
  }

  lemma NumberedSplit<T>(xs: seq<T>, k: nat, first: nat, render: (nat, T) -> string)
    requires k < |xs|
    ensures Concat(Numbered(xs, first, render))
         == Concat(Numbered(xs[..k], first, render)) + render(first + k, xs[k])
            + Concat(Numbered(xs[k + 1..], first + k + 1, render))
  {
    var left, mid, right := Numbered(xs[..k], first, render), render(first + k, xs[k]),
                            Numbered(xs[k + 1..], first + k + 1, render);
    assert Numbered(xs, first, render) == left + ([mid] + right);
    ConcatAppend(left, [mid] + right);
    assert Concat([mid] + right) == mid + Concat(right) by { assert ([mid] + right)[1..] == right; }
  }

  /** The rendering loop of `create_context_from_courses`: appends the items one by one. */
  method RenderAll<T>(xs: seq<T>, first: nat, render: (nat, T) -> string) returns (out: string)
    ensures out == Concat(Numbered(xs, first, render))
  {
    out := "";
    assert Numbered(xs[..0], first, render) == [];
    for i := 0 to |xs|
      invariant out == Concat(Numbered(xs[..i], first, render))
    {
      NumberedSnoc(xs[..i], xs[i], first, render);
      assert xs[..i + 1] == xs[..i] + [xs[i]];
      out := out + render(first + i, xs[i]);
    }
    assert xs[..|xs|] == xs;
  }

  /** `create_context_from_courses` */
  method CreateContext(courses: seq<Course>, showRating: real -> string) returns (context: string)
    ensures context == Context(courses, showRating)
  {
    if |courses| == 0 {
      return NoCoursesMessage;
    }
    var blocks := RenderAll(courses, 1, BlockRenderer(showRating));
    context := ContextHeader + blocks;
  }

  /**
   * A non-empty context is the header followed by one block per course in input
   * order: the block of the course at position `k` is numbered `k + 1` (and, by
   * `BlockStartsWithTitle`, starts with that number and the course title).
   */
  lemma ContextBlockAt(cs: seq<Course>, k: nat, showRating: real -> string)
    requires k < |cs|
    ensures Context(cs, showRating)
         == ContextHeader + (Concat(Numbered(cs[..k], 1, BlockRenderer(showRating)))
                             + Block(k + 1, cs[k], showRating)
                             + Concat(Numbered(cs[k + 1..], k + 2, BlockRenderer(showRating))))
  {
    var render := BlockRenderer(showRating);
    NumberedSplit(cs, k, 1, render);
    BlockRendered(showRating, 1 + k, cs[k]);
    assert Context(cs, showRating) == ContextHeader + Concat(Numbered(cs, 1, render));
  }

  lemma BlockRendered(showRating: real -> string, i: nat, c: Course)
    ensures BlockRenderer(showRating)(i, c) == Block(i, c, showRating)
  {
  }

  /** A string occurs in the concatenation of a list that holds it. */
  lemma {:induction false} ConcatHoldsLine(lines: seq<string>, k: nat)
    requires k < |lines|
    ensures Contains(Concat(lines), lines[k])
  {
    if k == 0 {
      ContainsMiddle("", lines[0], Concat(lines[1..]));
      assert "" + lines[0] + Concat(lines[1..]) == Concat(lines);
    } else {
      ConcatHoldsLine(lines[1..], k - 1);
      ContainsSuffix(lines[0], Concat(lines[1..]), lines[k]);
    }
  }

  lemma {:induction false} ContainsSuffix(a: string, b: string, p: string)
    requires Contains(b, p)
    ensures Contains(a + b, p)
    decreases |a|
  {
    if a == [] {
      assert a + b == b;
    } else {
      assert (a + b)[1..] == a[1..] + b;
      ContainsSuffix(a[1..], b, p);
    }
  }

  /** The lines of the card built by `format_course_info`. */
  function CardLines(c: Course, showRating: real -> string): seq<string>
  {
    [ "\n**" + c.title + "**\n",
      "- **Category:** " + c.category + "\n",
      "- **Difficulty:** " + c.difficulty + "\n",
      "- **Duration:** " + c.duration + "\n",
      "- **Skills:** " + Join(", ", c.skills) + "\n",
      "- **Prerequisites:** " + c.prerequisites + "\n",
      "- **Provider:** " + c.provider + "\n",
      "- **Rating:** " + showRating(c.rating) + "/5.0 (" + NatToString(c.enrollmentCount) + " students)\n",
      "- **Description:** " + c.description + "\n" ]
  }

  /** `format_course_info` */
  function FormatCourseInfo(c: Course, showRating: real -> string): string
  {
    Concat(CardLines(c, showRating))
  }

  /** The course card lists the skills on one line, joined by ", ". */
  lemma FormatListsSkills(c: Course, showRating: real -> string)
    ensures Contains(FormatCourseInfo(c, showRating), "- **Skills:** " + Join(", ", c.skills) + "\n")
  {
    ConcatHoldsLine(CardLines(c, showRating), 4);
  }
}
