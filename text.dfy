/**
  The string handling of the broadcast command (main.py, send_advertisement):
  Python's `str.strip()` and the slice that removes the command from the
  message text.
*/
module Text {

  /** Python's `str.isspace()` for one character. */
  predicate IsSpace(c: char)
  {
    || '\U{9}' <= c <= '\U{D}'
    || '\U{1C}' <= c <= ' '
    || c == '\U{85}' || c == '\U{A0}' || c == '\U{1680}'
    || '\U{2000}' <= c <= '\U{200A}'
    || c == '\U{2028}' || c == '\U{2029}' || c == '\U{202F}' || c == '\U{205F}' || c == '\U{3000}'
  }

  predicate AllSpace(s: string)
  {
    forall i :: 0 <= i < |s| ==> IsSpace(s[i])
  }

  /** `s.lstrip()`: the suffix left after the leading whitespace. */
  function TrimStart(s: string): (r: string)
    ensures |r| <= |s| && r == s[|s| - |r|..]
    ensures AllSpace(s[..|s| - |r|])
    ensures r == [] || !IsSpace(r[0])
  {
    if s != [] && IsSpace(s[0]) then
      var r := TrimStart(s[1..]);
      assert s[..|s| - |r|] == [s[0]] + s[1..][..|s[1..]| - |r|];
      r
    else s
  }

  /** `s.rstrip()`: the prefix left before the trailing whitespace. */
  function TrimEnd(s: string): (r: string)
    ensures |r| <= |s| && r == s[..|r|]
    ensures AllSpace(s[|r|..])
    ensures r == [] || !IsSpace(r[|r| - 1])
  {
    if s != [] && IsSpace(s[|s| - 1]) then
      var r := TrimEnd(s[..|s| - 1]);
      assert s[|r|..] == s[..|s| - 1][|r|..] + [s[|s| - 1]];
      r
    else s
  }

  /** `s.strip()` */
  function Strip(s: string): string
  {
    TrimEnd(TrimStart(s))
  }

  /**
    What `strip` keeps is a contiguous part of its argument, with only
    whitespace cut off on either side.
  */
  lemma StripIsTrimmedInfix(s: string)
    ensures exists i, j ::
              0 <= i <= j <= |s| && Strip(s) == s[i..j] && AllSpace(s[..i]) && AllSpace(s[j..])
  {
    var t := TrimStart(s);
    var r := TrimEnd(t);
    var i := |s| - |t|;
    var j := i + |r|;
    assert r == s[i..j];
    assert s[j..] == t[|r|..];
  }

  /** What `strip` keeps neither starts nor ends with whitespace. */
  lemma StripHasNoOuterSpace(s: string)
    ensures Strip(s) == [] || (!IsSpace(Strip(s)[0]) && !IsSpace(Strip(s)[|Strip(s)| - 1]))
  {
    var t := TrimStart(s);
    var r := TrimEnd(t);
    if r != [] {
      assert r[0] == t[0];
    }
  }

  /** `strip` returns the empty string exactly when its argument is all whitespace. */
  lemma StripEmptyIff(s: string)
    ensures Strip(s) == [] <==> AllSpace(s)
  {
    var t := TrimStart(s);
    var r := TrimEnd(t);
    var cut := |s| - |t|;
    if r == [] {
      assert t[|r|..] == t;
      assert t == [];
      assert s[..cut] == s;
    } else {
      var k := cut + |r| - 1;
      assert r[|r| - 1] == t[|r| - 1] == s[k];
      assert !IsSpace(s[k]);
    }
  }

  /** Leading whitespace does not change what `lstrip` returns. */
  lemma {:induction false} TrimStartAfterSpace(w: string, s: string)
    requires AllSpace(w)
    ensures TrimStart(w + s) == TrimStart(s)
  {
    if w != [] {
      assert (w + s)[0] == w[0];
      assert (w + s)[1..] == w[1..] + s;
      TrimStartAfterSpace(w[1..], s);
    } else {
      assert w + s == s;
    }
  }

  /** Python's `s[n:]` for a non-negative `n`: empty when `s` is shorter than `n`. */
  function SliceFrom(s: string, n: nat): (r: string)
    ensures |r| == if |s| <= n then 0 else |s| - n
    ensures forall i :: 0 <= i < |r| ==> r[i] == s[n + i]
  {
    if |s| <= n then [] else s[n..]
  }

  /** The text of a `/reklama` command message up to its argument. */
  const Command: string := "/reklama "

  /**
    The advertisement text as main.py computes it: `text[11:].strip()`.
    Eleven is the length of "/advertise ", not of the "/reklama " prefix the
    command actually carries, so two characters of the message are lost.
  */
  function AdTextAsWritten(text: string): (r: string)
    ensures r == [] <==> |text| <= 11 || AllSpace(text[11..])
  {
    StripEmptyIff(SliceFrom(text, 11));
    Strip(SliceFrom(text, 11))
  }

  /** As written, the first two characters of every advertisement are cut off. */
  lemma AsWrittenDropsTwoCharacters(m: string)
    ensures AdTextAsWritten(Command + m) == Strip(SliceFrom(m, 2))
  {
    assert SliceFrom(Command + m, 11) == SliceFrom(m, 2);
  }

  /**
    As written, every two-character advertisement ("/reklama Hi") is refused
    as empty, although the text after the command is not blank.
  */
  lemma AsWrittenRefusesShortAdvertisement(m: string)
    requires |m| == 2 && !AllSpace(m)
    ensures AdTextAsWritten(Command + m) == ""
    ensures AdText(Command + m) != ""
  {
    AsWrittenDropsTwoCharacters(m);
    assert SliceFrom(m, 2) == [];
    CommandIsWordAndSpace();
    AdTextOfCommand("/reklama", m);
    StripEmptyIff(m);
  }

  /**
    As written, a longer advertisement reaches the users without its first two
    characters ("/reklama Salom" sends "lom"), where the intended text is the
    whole stripped argument.
  */
  lemma AsWrittenTruncatesAdvertisement(m: string)
    requires |m| > 2
    ensures AdTextAsWritten(Command + m) == Strip(m[2..])
    ensures AdText(Command + m) == Strip(m)
  {
    AsWrittenDropsTwoCharacters(m);
    CommandIsWordAndSpace();
    AdTextOfCommand("/reklama", m);
  }

  lemma CommandIsWordAndSpace()
    ensures forall i :: 0 <= i < |"/reklama"| ==> !IsSpace("/reklama"[i])
    ensures forall m :: "/reklama" + " " + m == Command + m
  {
  }

  /** The message from its first whitespace on, that is, without its command word. */
  function DropCommandWord(s: string): (r: string)
    ensures |r| <= |s| && r == s[|s| - |r|..]
    ensures forall i :: 0 <= i < |s| - |r| ==> !IsSpace(s[i])
    ensures r == [] || IsSpace(r[0])
  {
    if s == [] || IsSpace(s[0]) then s else DropCommandWord(s[1..])
  }

  /**
    The advertisement text as evidently intended: the message after the
    command word, stripped.
  */
  function AdText(text: string): (r: string)
    ensures r == [] <==> AllSpace(DropCommandWord(text))
  {
    StripEmptyIff(DropCommandWord(text));
    Strip(DropCommandWord(text))
  }

  /** The intended extraction returns the stripped argument of any command word. */
  lemma {:induction false} AdTextOfCommand(cmd: string, m: string)
    requires forall i :: 0 <= i < |cmd| ==> !IsSpace(cmd[i])
    ensures AdText(cmd + " " + m) == Strip(m)
  {
    DropsCommand(cmd, " " + m);
    assert cmd + " " + m == cmd + (" " + m);
    TrimStartAfterSpace(" ", m);
  }

  lemma {:induction false} DropsCommand(cmd: string, rest: string)
    requires forall i :: 0 <= i < |cmd| ==> !IsSpace(cmd[i])
    requires rest != [] && IsSpace(rest[0])
    ensures DropCommandWord(cmd + rest) == rest
  {
    if cmd != [] {
      assert (cmd + rest)[1..] == cmd[1..] + rest;
      DropsCommand(cmd[1..], rest);
    } else {
      assert cmd + rest == rest;
    }
  }
}
