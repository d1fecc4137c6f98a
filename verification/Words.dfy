/** White space, words and signed numbers in text. Here a character is a Unicode code point, as in
    the functions of the Go library that decode UTF-8. */
module Words {
  import opened Text

  /** `unicode.IsSpace`. */
  predicate IsSpace(c: char) {
    || c == ' ' || 0x09 <= c as int <= 0x0D || c as int == 0x85 || c as int == 0xA0
    || c as int == 0x1680 || 0x2000 <= c as int <= 0x200A || c as int == 0x2028 || c as int == 0x2029
    || c as int == 0x202F || c as int == 0x205F || c as int == 0x3000
  }

  /** A word: not empty and without white space. */
  predicate IsWord(w: string) {
    w != "" && forall i :: 0 <= i < |w| ==> !IsSpace(w[i])
  }

  predicate AllWords(ws: seq<string>) {
    forall i :: 0 <= i < |ws| ==> IsWord(ws[i])
  }

  /** `strings.TrimSpace`. */
  function TrimSpace(s: string): (t: string)
    ensures t == "" || (!IsSpace(t[0]) && !IsSpace(t[|t| - 1]))
    decreases |s|
  {
    if s == "" then ""
    else if IsSpace(s[0]) then TrimSpace(s[1..])
    else if IsSpace(s[|s| - 1]) then TrimSpace(s[..|s| - 1])
    else s
  }

  /** Exactly the white space at both ends is dropped. */
  lemma {:induction false} TrimSpaceIs(s: string) returns (from: nat, to: nat)
    ensures from <= to <= |s| && TrimSpace(s) == s[from..to]
    ensures forall i :: 0 <= i < from || to <= i < |s| ==> IsSpace(s[i])
    ensures from < to ==> !IsSpace(s[from]) && !IsSpace(s[to - 1])
    decreases |s|
  {
    hide IsSpace;
    if s == "" {
      from, to := 0, 0;
    } else if IsSpace(s[0]) {
      from, to := TrimSpaceIs(s[1..]);
      assert s[1..][from..to] == s[from + 1..to + 1];
      from, to := from + 1, to + 1;
    } else if IsSpace(s[|s| - 1]) {
      from, to := TrimSpaceIs(s[..|s| - 1]);
    } else {
      from, to := 0, |s|;
    }
  }

  /** Length of the leading run of non-space characters. */
  function WordEnd(s: string): (n: nat)
    ensures n <= |s| && (forall i :: 0 <= i < n ==> !IsSpace(s[i]))
    ensures n < |s| ==> IsSpace(s[n])
  {
    if s == "" || IsSpace(s[0]) then 0 else 1 + WordEnd(s[1..])
  }

  /** `strings.Fields`: the words of `s`. */
  function Fields(s: string): (ws: seq<string>)
    ensures AllWords(ws)
    decreases |s|
  {
    if s == "" then []
    else if IsSpace(s[0]) then Fields(s[1..])
    else [s[..WordEnd(s)]] + Fields(s[WordEnd(s)..])
  }

  lemma {:induction false} WordEndOf(w: string, rest: string)
    requires IsWord(w) && (rest == "" || IsSpace(rest[0]))
    ensures WordEnd(w + rest) == |w|
  {
    assert (w + rest)[1..] == w[1..] + rest;
    if |w| > 1 {
      WordEndOf(w[1..], rest);
    } else {
      assert w[1..] + rest == rest;
    }
  }

  lemma FieldsFront(w: string, rest: string)
    requires IsWord(w) && (rest == "" || IsSpace(rest[0]))
    ensures Fields(w + rest) == [w] + Fields(rest)
  {
    hide IsSpace;
    WordEndOf(w, rest);
    assert (w + rest)[0] == w[0];
    assert (w + rest)[..|w|] == w && (w + rest)[|w|..] == rest;
  }

  lemma FieldsSkip(space: char, s: string)
    requires IsSpace(space)
    ensures Fields("") == [] && Fields([space] + s) == Fields(s)
  {
    assert ([space] + s)[1..] == s;
  }

  lemma JoinFew(ws: seq<string>)
    ensures ws == [] ==> Join(ws, " ") == ""
    ensures |ws| == 1 ==> Join(ws, " ") == ws[0] + ""
    ensures |ws| > 1 ==> Join(ws, " ") == ws[0] + (" " + Join(ws[1..], " "))
  {
    if |ws| > 1 {
      JoinCons(ws, " ");
    }
  }

  /** Words joined by single spaces come apart into the same words. */
  lemma {:induction false} FieldsOfJoin(ws: seq<string>)
    requires AllWords(ws)
    ensures Fields(Join(ws, " ")) == ws
  {
    hide Fields, Join, IsWord;
    JoinFew(ws);
    assert IsSpace(' ');
    FieldsSkip(' ', if |ws| > 1 then Join(ws[1..], " ") else "");
    if |ws| == 1 {
      FieldsFront(ws[0], "");
    } else if |ws| > 1 {
      FieldsOfJoin(ws[1..]);
      FieldsFront(ws[0], " " + Join(ws[1..], " "));
      assert ws == [ws[0]] + ws[1..];
    }
  }

  lemma {:induction false} JoinLast(parts: seq<string>, last: string)
    requires parts != []
    ensures Join(parts + [last], " ") == Join(parts, " ") + " " + last
  {
    var all := parts + [last];
    assert all[0] == parts[0] && all[1..] == parts[1..] + [last];
    if |parts| > 1 {
      JoinLast(parts[1..], last);
      assert Join(all, " ") == parts[0] + " " + (Join(parts[1..], " ") + " " + last);
    } else {
      assert all[1..] == [last];
    }
  }

  lemma {:induction false} JoinEnds(ws: seq<string>)
    requires ws != [] && AllWords(ws)
    ensures var s, last := Join(ws, " "), ws[|ws| - 1];
            s != "" && s[0] == ws[0][0] && s[|s| - 1] == last[|last| - 1]
    ensures ws[0] <= Join(ws, " ")
  {
    hide IsSpace;
    assert IsWord(ws[0]) && IsWord(ws[|ws| - 1]);
    if |ws| > 1 {
      hide Join;
      JoinCons(ws, " ");
      JoinEnds(ws[1..]);
    }
  }

  /** A space and then `a` occur in joined words exactly when a word after the first starts with `a`. */
  lemma {:induction false} SpaceThenIff(ws: seq<string>, a: string)
    requires AllWords(ws) && IsWord(a)
    ensures Contains(Join(ws, " "), " " + a) <==> exists i :: 1 <= i < |ws| && a <= ws[i]
  {
    if |ws| <= 1 {
      var s := Join(ws, " ");
      forall i | 0 <= i <= |s| ensures !(" " + a <= s[i..]) {
        if i < |s| {
          assert s[i..][0] == s[i] && (" " + a)[0] == ' ';
        }
      }
    } else {
      SpaceThenIff(ws[1..], a);
      SpaceThenStep(ws, a);
      var tail := ws[1..];
      if exists i :: 1 <= i < |ws| && a <= ws[i] {
        var i :| 1 <= i < |ws| && a <= ws[i];
        if i > 1 {
          assert tail[i - 1] == ws[i];
        }
      }
      if exists i :: 1 <= i < |tail| && a <= tail[i] {
        var i :| 1 <= i < |tail| && a <= tail[i];
        assert ws[i + 1] == tail[i];
      }
    }
  }

  lemma SpaceThenStep(ws: seq<string>, a: string)
    requires |ws| >= 2 && AllWords(ws) && IsWord(a)
    ensures Contains(Join(ws, " "), " " + a) <==> a <= ws[1] || Contains(Join(ws[1..], " "), " " + a)
  {
    hide Contains, IsWord, Join;
    var tail := Join(ws[1..], " ");
    assert forall i :: 0 <= i < |ws[1..]| ==> ws[1..][i] == ws[i + 1];
    PrefixOfTail(ws[1..], a);
    assert IsWord(ws[0]);
    JoinCons(ws, " ");
    if a <= tail || Contains(tail, " " + a) {
      SpaceThenForward(ws[0], tail, a);
    }
    if Contains(ws[0] + " " + tail, " " + a) {
      SpaceThenBack(ws[0], tail, a);
    }
  }

  lemma SpaceThenForward(w: string, tail: string, a: string)
    requires a <= tail || Contains(tail, " " + a)
    ensures Contains(w + " " + tail, " " + a)
  {
    var s, n, sub := w + " " + tail, |w|, " " + a;
    if a <= tail {
      assert s[n..] == " " + tail;
      assert sub <= s[n..];
    } else {
      var i :| 0 <= i <= |tail| && sub <= tail[i..];
      assert s[n + 1 + i..] == tail[i..];
    }
  }

  lemma NoSpaceIn(w: string)
    requires IsWord(w)
    ensures forall k :: 0 <= k < |w| ==> w[k] != ' '
  {
  }

  lemma SpaceThenBack(w: string, tail: string, a: string)
    requires IsWord(w) && Contains(w + " " + tail, " " + a)
    ensures a <= tail || Contains(tail, " " + a)
  {
    hide IsWord;
    NoSpaceIn(w);
    var s, n, sub := w + " " + tail, |w|, " " + a;
    var i :| 0 <= i <= |s| && sub <= s[i..];
    assert s[i..][0] == sub[0] == ' ' && s[i] == ' ';
    assert i >= n;
    if i == n {
      assert s[n..] == " " + tail;
      assert s[n..][1..] == tail && sub[1..] == a;
    } else {
      assert s[i..] == tail[i - n - 1..];
    }
  }

  lemma PrefixOfTail(ws: seq<string>, a: string)
    requires ws != [] && AllWords(ws) && IsWord(a)
    ensures a <= Join(ws, " ") <==> a <= ws[0]
  {
    var s, n := Join(ws, " "), |ws[0]|;
    assert ws[0] <= s;
    if a <= s && |a| > n {
      assert |ws| > 1;
      assert s[n] == ' ' && a[n] == s[n];
      assert IsSpace(a[n]);
    }
  }

  // ---------------------------------------------------------------- signed numbers

  const INT64_LIMIT: int := 0x8000_0000_0000_0000

  predicate IsInt64(n: int) {
    -INT64_LIMIT <= n < INT64_LIMIT
  }

  /** `strconv.Itoa`. */
  function Itoa(n: int): (s: string)
    ensures s != ""
  {
    if n < 0 then "-" + Decimal(-n) else Decimal(n)
  }

  function Signed(negative: bool, v: nat): int {
    if negative then 0 - v else v
  }

  /** `strconv.Atoi`: an optional sign and digits, within 64 bits. */
  function Atoi(s: string): Option<int> {
    var negative := s != "" && s[0] == '-';
    var digits := if s != "" && (s[0] == '-' || s[0] == '+') then s[1..] else s;
    match ParseDecimal(digits)
    case None => None
    case Some(v) =>
      var n := Signed(negative, v);
      if IsInt64(n) then Some(n) else None
  }

  lemma AtoiOfItoa(n: int)
    requires IsInt64(n)
    ensures Atoi(Itoa(n)) == Some(n)
    ensures IsWord(Itoa(n)) && '"' !in Itoa(n)
  {
    hide Decimal, ParseDecimal;
    var m: nat := if n < 0 then -n else n;
    DecimalRoundTrip(m);
    DecimalChars(m);
    if n < 0 {
      assert ("-" + Decimal(m))[1..] == Decimal(m);
    }
  }

  /** Anything but digits behind an optional sign is no number. */
  lemma AtoiRefuses(s: string, i: nat)
    requires s == "" || s == "-" || s == "+" || (i < |s| && !IsDigit(s[i]) && (i > 0 || (s[0] != '-' && s[0] != '+')))
    ensures Atoi(s) == None
  {
    var digits := if s != "" && (s[0] == '-' || s[0] == '+') then s[1..] else s;
    if digits != "" {
      assert s[i] in digits by {
        if digits != s {
          assert digits[i - 1] == s[i];
        }
      }
    }
  }

  lemma DecimalChars(n: nat)
    ensures forall i :: 0 <= i < |Decimal(n)| ==> IsDigit(Decimal(n)[i])
  {
    var s := Decimal(n);
    forall i | 0 <= i < |s| ensures IsDigit(s[i]) {
      assert s[i] in s;
    }
  }
}
