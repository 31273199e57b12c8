/** The dashboard header: the user's display name and avatar initials, and
    the light/dark theme switch. */
module DashboardHeader {

  /** `s.split(" ")`: the pieces between single spaces, empty pieces
      included (so `""` is `[""]`). */
  function Split(s: string): (segs: seq<string>)
    ensures |segs| >= 1
    ensures forall i :: 0 <= i < |segs| ==> ' ' !in segs[i]
  {
    if s == [] then [[]]
    else
      var rest := Split(s[1..]);
      if s[0] == ' ' then [[]] + rest
      else [[s[0]] + rest[0]] + rest[1..]
  }

  /** `segs.join(" ")`. */
  function Join(segs: seq<string>): (s: string)
    requires |segs| >= 1
    ensures segs[0] <= s && |s| >= |segs| - 1
  {
    if |segs| == 1 then segs[0] else segs[0] + " " + Join(segs[1..])
  }

  /** Joining the pieces back with spaces gives the original string. */
  lemma {:induction false} JoinSplit(s: string)
    ensures Join(Split(s)) == s
  {
    if s != [] {
      var rest := Split(s[1..]);
      JoinSplit(s[1..]);
      if s[0] == ' ' {
        assert ([[]] + rest)[1..] == rest;
      } else if |rest| > 1 {
        var segs := [[s[0]] + rest[0]] + rest[1..];
        assert segs[1..] == rest[1..];
        assert Join(segs) == [s[0]] + (rest[0] + " " + Join(rest[1..]));
      }
    }
  }

  /** `.map((name) => name[0]).join("")`: the first character of each
      piece; an empty piece gives `undefined`, which joins as nothing. */
  function FirstLetters(segs: seq<string>): (r: string)
    ensures |r| <= |segs|
  {
    if segs == [] then []
    else (if segs[0] == [] then [] else [segs[0][0]]) + FirstLetters(segs[1..])
  }


  /** The characters of `s` that start a word: not a space, and first or
      right after a space (`afterSpace` says whether the previous character,
      if any, was a space). */
  function WordStarts(s: string, afterSpace: bool): string {
    if s == [] then []
    else (if s[0] != ' ' && afterSpace then [s[0]] else []) + WordStarts(s[1..], s[0] == ' ')
  }

  lemma {:induction false} FirstLettersSplit(s: string)
    ensures FirstLetters(Split(s)) == WordStarts(s, true)
    ensures FirstLetters(Split(s)[1..]) == WordStarts(s, false)
  {
    if s != [] {
      var rest := Split(s[1..]);
      FirstLettersSplit(s[1..]);
      if s[0] == ' ' {
        assert ([[]] + rest)[1..] == rest;
      } else {
        var segs := [[s[0]] + rest[0]] + rest[1..];
        assert segs[1..] == rest[1..];
      }
    }
  }

  /** `userInitials`. They are the first character of every word, in order,
      and there are never more of them than pieces. */
  function Initials(name: string): (r: string)
    ensures r == WordStarts(name, true)
    ensures |r| <= |Split(name)|
  {
    FirstLettersSplit(name);
    FirstLetters(Split(name))
  }

  /** A word followed by a space and more text splits off as one piece. */
  lemma {:induction false} SplitWord(w: string, rest: string)
    requires ' ' !in w
    ensures Split(w + " " + rest) == [w] + Split(rest)
    ensures Split(w) == [w]
  {
    if w == [] {
      assert (w + " " + rest)[1..] == rest;
    } else {
      assert w[0] != ' ' && ' ' !in w[1..];
      SplitWord(w[1..], rest);
      assert (w + " " + rest)[1..] == w[1..] + " " + rest;
      assert [w[0]] + w[1..] == w;
    }
  }

  /** The name shown for the page's role. */
  function UserName(userRole: string): (name: string)
    ensures name == "Alex Johnson" <==> userRole == "student"
    ensures name != "Alex Johnson" ==> name == "Dr. Sarah Miller"
  {
    if userRole == "student" then "Alex Johnson" else "Dr. Sarah Miller"
  }

  /** The initials of two words separated by one space. */
  lemma TwoWordInitials(a: string, b: string)
    requires a != [] && b != [] && ' ' !in a && ' ' !in b
    ensures Split(a + " " + b) == [a, b]
    ensures Initials(a + " " + b) == [a[0], b[0]]
  {
    SplitWord(a, b);
    SplitWord(b, "");
    var segs := [a] + Split(b);
    assert segs == [a, b];
    assert segs[1..] == [b];
    assert FirstLetters([b]) == [b[0]];
  }

  /** The initials of three words separated by single spaces. */
  lemma ThreeWordInitials(a: string, b: string, c: string)
    requires a != [] && b != [] && c != [] && ' ' !in a && ' ' !in b && ' ' !in c
    ensures Initials(a + " " + (b + " " + c)) == [a[0], b[0], c[0]]
  {
    SplitWord(a, b + " " + c);
    TwoWordInitials(b, c);
    var segs := [a] + Split(b + " " + c);
    assert segs == [a, b, c];
    assert segs[1..] == [b, c];
    assert FirstLetters([b, c]) == [b[0], c[0]] by {
      assert [b, c][1..] == [c];
      assert FirstLetters([c]) == [c[0]];
    }
  }

  /** A student's avatar shows "AJ". */
  lemma StudentInitials()
    ensures Initials(UserName("student")) == "AJ"
  {
    TwoWordInitials("Alex", "Johnson");
    assert "Alex Johnson" == "Alex" + " " + "Johnson";
  }

  /** Every other role's avatar shows "DSM". */
  lemma OtherInitials(userRole: string)
    requires userRole != "student"
    ensures Initials(UserName(userRole)) == "DSM"
  {
    ThreeWordInitials("Dr.", "Sarah", "Miller");
    assert "Dr. Sarah Miller" == "Dr." + " " + ("Sarah" + " " + "Miller");
  }

  /** An empty name has no initials. */
  lemma EmptyNameInitials()
    ensures Initials("") == ""
  {
  }

  /** `handleThemeToggle`: `dark` becomes `light`, anything else `dark`. */
  function ToggleTheme(theme: string): (next: string)
    ensures next == "light" <==> theme == "dark"
    ensures next == "dark" <==> theme != "dark"
  {
    if theme == "dark" then "light" else "dark"
  }

  /** Toggling twice returns to `light` or `dark`; any other starting value
      ends at `light`. */
  lemma ToggleTwice(theme: string)
    ensures theme == "light" || theme == "dark" ==> ToggleTheme(ToggleTheme(theme)) == theme
    ensures theme != "dark" ==> ToggleTheme(ToggleTheme(theme)) == "light"
  {
  }
}
