/** The placeholder avatar: up to two initials of a name, upper-cased, or a
    question mark. */
module DefaultAvatar {
  import opened Wrappers
  import opened Js
  import Text

  /** `words.map(word => word[0]).join('')`: the first character of each
      word; an empty word contributes `undefined`, which joins as nothing. */
  function FirstChars(words: seq<string>): (r: string)
    ensures |r| <= |words|
  {
    if words == [] then []
    else (if words[0] == [] then [] else [words[0][0]]) + FirstChars(words[1..])
  }

  /** An independent description: each character that is not a space and
      comes first or right after a space. */
  function WordStartsFrom(s: string, atStart: bool): string {
    if s == [] then []
    else if s[0] == ' ' then WordStartsFrom(s[1..], true)
    else (if atStart then [s[0]] else []) + WordStartsFrom(s[1..], false)
  }

  /** Splitting on spaces and taking first characters finds exactly the
      characters that start a word. */
  lemma {:induction false} FirstCharsAreWordStarts(s: string)
    ensures FirstChars(Text.Split(s, ' ')) == WordStartsFrom(s, true)
    ensures FirstChars(Text.Split(s, ' ')[1..]) == WordStartsFrom(s, false)
  {
    if s != [] {
      FirstCharsAreWordStarts(s[1..]);
      var rest := Text.Split(s[1..], ' ');
      var w := Text.Split(s, ' ');
      if s[0] == ' ' {
        assert w == [[]] + rest;
        assert w[1..] == rest;
      } else {
        assert w == [[s[0]] + rest[0]] + rest[1..];
        assert w[1..] == rest[1..];
      }
    }
  }

  /** The initials for the `name` prop: an absent prop is the empty name;
      anything other than a text has no `split` and throws. */
  function Initials(name: JsValue): (r: Result<string, TypeError>)
    ensures r.Ok? <==> name.Undefined? || name.Str?
    ensures r.Ok? ==> |r.value| <= 2
    ensures name.Undefined? ==> r == Ok("")
  {
    match name
    case Undefined => Ok("")
    case Str(s) =>
      var letters := Text.Upper(FirstChars(Text.Split(s, ' ')));
      Ok(if |letters| <= 2 then letters else letters[..2])
    case _ => Err(TypeError)
  }

  /** The initials are the upper-cased first two word starts of the name. */
  lemma InitialsAreFirstWordStarts(s: string)
    ensures var starts := Text.Upper(WordStartsFrom(s, true));
            Initials(Str(s)) == Ok(if |starts| <= 2 then starts else starts[..2])
  {
    FirstCharsAreWordStarts(s);
  }

  /** What the avatar shows: the initials, or "?" when there are none. */
  function Shown(name: JsValue): (r: Result<string, TypeError>)
    ensures r.Ok? <==> Initials(name).Ok?
    ensures r.Ok? ==> r.value != "" && (r.value == "?" <==> Initials(name).value == "" || Initials(name).value == "?")
  {
    var initials :- Initials(name);
    Ok(if initials == "" then "?" else initials)
  }

  /** A name whose word starts are known has the first two of them, upper-cased,
      as its initials. */
  lemma InitialsFromStarts(s: string, starts: string)
    requires WordStartsFrom(s, true) == starts
    ensures var up := Text.Upper(starts);
            Shown(Str(s)) == Ok(if up == [] then "?" else if |up| <= 2 then up else up[..2])
  {
    InitialsAreFirstWordStarts(s);
  }

  lemma {:induction false} ExampleStarts()
    ensures WordStartsFrom("ab  c d", true) == "acd"
  {
    var s := "ab  c d";
    assert WordStartsFrom(s[6..], true) == "d";
    assert WordStartsFrom(s[5..], false) == "d";
    assert WordStartsFrom(s[4..], true) == "cd";
    assert WordStartsFrom(s[3..], true) == "cd";
    assert WordStartsFrom(s[2..], false) == "cd";
    assert WordStartsFrom(s[1..], false) == "cd";
  }

  /** A name with three words starting a, c and d, however many spaces
      separate them ("ab  c d" is one), shows the first two, upper-cased:
      the third word is cut. */
  lemma ThreeWordsGiveTwoInitials(name: string)
    requires WordStartsFrom(name, true) == "acd"
    ensures Shown(Str(name)) == Ok("AC")
  {
    InitialsFromStarts(name, "acd");
    var up := Text.Upper("acd");
    assert up[0] == 'A' && up[1] == 'C' && |up| == 3;
    assert up[..2] == "AC";
  }

  /** A blank or absent name shows "?"; a null name throws. */
  lemma {:induction false} NoNameShowsQuestionMark()
    ensures Shown(Str("  ")) == Ok("?")
    ensures Shown(Undefined) == Ok("?")
    ensures Shown(Null).Err?
  {
    InitialsAreFirstWordStarts("  ");
    var s := "  ";
    assert WordStartsFrom(s[1..], true) == [];
    assert WordStartsFrom(s, true) == [];
  }
}
