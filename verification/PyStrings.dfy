/** The Python string operations the modelled code uses. */
module PyStrings {
  /** str.isspace for one character: what str.strip() removes. */
  predicate IsSpace(c: char) {
    var u := c as int;
    || 0x09 <= u <= 0x0d || 0x1c <= u <= 0x20 || u == 0x85 || u == 0xa0 || u == 0x1680
    || 0x2000 <= u <= 0x200a || u == 0x2028 || u == 0x2029 || u == 0x202f || u == 0x205f || u == 0x3000
  }

  predicate AllSpace(s: string) {
    forall i | 0 <= i < |s| :: IsSpace(s[i])
  }

  /** No white space at either end. */
  predicate Trimmed(s: string) {
    s != [] ==> !IsSpace(s[0]) && !IsSpace(s[|s| - 1])
  }

  function Strip(s: string): (r: string)
    ensures Trimmed(r)
    decreases |s|
  {
    if s == [] then []
    else if IsSpace(s[0]) then Strip(s[1..])
    else if IsSpace(s[|s| - 1]) then Strip(s[..|s| - 1])
    else s
  }

  /** Strip is determined by what it promises: it takes white space off both ends and leaves none there. */
  lemma {:induction false} StripIsTheMiddle(left: string, middle: string, right: string)
    requires AllSpace(left) && Trimmed(middle) && AllSpace(right)
    ensures Strip(left + middle + right) == middle
    decreases |left| + |right|
  {
    var s := left + middle + right;
    if left != [] {
      assert s[1..] == left[1..] + middle + right;
      StripIsTheMiddle(left[1..], middle, right);
    } else if middle == [] {
      assert s == right;
      if right != [] {
        assert s[1..] == [] + middle + right[1..];
        StripIsTheMiddle([], middle, right[1..]);
      }
    } else if right != [] {
      assert s[..|s| - 1] == left + middle + right[..|right| - 1];
      StripIsTheMiddle(left, middle, right[..|right| - 1]);
    } else {
      assert s == middle;
    }
  }

  lemma {:induction false} StripEmptyIff(s: string)
    ensures Strip(s) == [] <==> AllSpace(s)
    ensures |Strip(s)| <= |s|
    decreases |s|
  {
    if s == [] {
    } else if IsSpace(s[0]) {
      StripEmptyIff(s[1..]);
      assert s == [s[0]] + s[1..];
    } else if IsSpace(s[|s| - 1]) {
      StripEmptyIff(s[..|s| - 1]);
      assert s[..|s| - 1][0] == s[0];
    }
  }

  /** s.split(",")[0] */
  function FirstField(s: string): (r: string)
    ensures ',' !in r && r <= s
  {
    if s == [] || s[0] == ',' then [] else [s[0]] + FirstField(s[1..])
  }

  lemma {:induction false} FirstFieldIsFirst(field: string, rest: string)
    requires ',' !in field
    ensures FirstField(field + "," + rest) == field && FirstField(field) == field
    decreases |field|
  {
    if field == [] {
    } else {
      assert field[0] in field;
      assert (field + "," + rest)[1..] == field[1..] + "," + rest;
      FirstFieldIsFirst(field[1..], rest);
    }
  }
}
