/** The file-name key of a futures contract: how a contract identity is
    turned into a key (`instrument + "_" + date_str`) and how a key is split
    back into an identity by counting its underscore-separated tokens. */
module KeyNames {
  import opened Results

  /** The identity of a contract as far as the key is concerned. */
  datatype Contract = Contract(instrument: string, dateStr: string)

  /** A key whose token count matches none of the recognised arities. */
  datatype KeyError = MalformedKey(keyname: string)

  /** Python's `s.split("_")`: the maximal underscore-free pieces of `s`,
      keeping empty pieces, so that a string with n underscores has n + 1
      tokens (and the empty string has one empty token). */
  function Split(s: string): (tokens: seq<string>)
    ensures |tokens| >= 1
    decreases |s|
  {
    if s == [] then [""]
    else
      var rest := Split(s[1..]);
      if s[0] == '_' then [""] + rest
      else [[s[0]] + rest[0]] + rest[1..]
  }

  /** Python's `"_".join(tokens)`. */
  function Join(tokens: seq<string>): string
    requires |tokens| >= 1
    decreases |tokens|
  {
    if |tokens| == 1 then tokens[0] else tokens[0] + "_" + Join(tokens[1..])
  }

  /** The number of underscores in `s`. */
  function CountUnderscores(s: string): nat
  {
    if s == [] then 0 else (if s[0] == '_' then 1 else 0) + CountUnderscores(s[1..])
  }

  /** The key of a contract: instrument code, an underscore, the contract
      date, with no escaping of underscores in either part. */
  function Encode(c: Contract): (key: string)
    ensures |key| == |c.instrument| + 1 + |c.dateStr|
    ensures key[..|c.instrument|] == c.instrument && key[|c.instrument|] == '_'
    ensures key[|c.instrument| + 1..] == c.dateStr
  {
    c.instrument + "_" + c.dateStr
  }

  /** The identity stored under a key. Four tokens: the first three are the
      instrument code. Then, if three tokens remain, the first two are the
      instrument code. A pair is then taken as it is; any other count is a
      malformed key. */
  function Decode(keyname: string): (r: Result<Contract, KeyError>)
    ensures r.Err? <==> !(2 <= |Split(keyname)| <= 4)
    ensures r.Err? ==> r.error == MalformedKey(keyname)
  {
    var tokens := Split(keyname);
    var afterFour :=
      if |tokens| == 4 then [tokens[0] + "_" + tokens[1] + "_" + tokens[2], tokens[3]]
      else tokens;
    var afterThree :=
      if |afterFour| == 3 then [afterFour[0] + "_" + afterFour[1], afterFour[2]]
      else afterFour;
    if |afterThree| == 2 then Ok(Contract(afterThree[0], afterThree[1]))
    else Err(MalformedKey(keyname))
  }

  /** Decodes every key, in order; the first malformed key aborts the whole
      enumeration, as an exception raised inside a list comprehension does. */
  function DecodeAll(keys: seq<string>): (r: Result<seq<Contract>, KeyError>)
    ensures r.Ok? <==> forall i :: 0 <= i < |keys| ==> Decode(keys[i]).Ok?
    ensures r.Ok? ==> |r.value| == |keys|
    ensures r.Ok? ==> forall i :: 0 <= i < |keys| ==> Decode(keys[i]) == Ok(r.value[i])
    ensures r.Err? ==> exists i :: 0 <= i < |keys| && Decode(keys[i]) == Err(r.error)
                                   && forall j :: 0 <= j < i ==> Decode(keys[j]).Ok?
    decreases |keys|
  {
    if keys == [] then Ok([])
    else
      match Decode(keys[0])
      case Err(e) => Err(e)
      case Ok(c) =>
        match DecodeAll(keys[1..])
        case Err(e) => Err(e)
        case Ok(cs) => Ok([c] + cs)
  }

  // ---------------------------------------------------------------------
  // Splitting and joining

  /** No token of a split holds an underscore. */
  lemma {:induction false} SplitTokens(s: string)
    ensures forall i :: 0 <= i < |Split(s)| ==> '_' !in Split(s)[i]
    decreases |s|
  {
    if s != [] {
      SplitTokens(s[1..]);
    }
  }

  lemma {:induction false} SplitLength(s: string)
    ensures |Split(s)| == CountUnderscores(s) + 1
    decreases |s|
  {
    if s != [] {
      SplitLength(s[1..]);
    }
  }

  /** Joining the tokens of a split gives the string back. */
  lemma {:induction false} JoinSplit(s: string)
    ensures Join(Split(s)) == s
    decreases |s|
  {
    if s != [] {
      var rest := Split(s[1..]);
      JoinSplit(s[1..]);
      if s[0] == '_' {
        assert ([""] + rest)[1..] == rest;
      } else if |rest| > 1 {
        var ts := Split(s);
        assert ts[1..] == rest[1..];
        assert Join(rest) == rest[0] + "_" + Join(rest[1..]);
        assert s == [s[0]] + s[1..];
      } else {
        assert s == [s[0]] + s[1..];
      }
    }
  }

  /** A string without underscores is a single token. */
  lemma {:induction false} SplitWithoutUnderscore(s: string)
    requires '_' !in s
    ensures Split(s) == [s]
    decreases |s|
  {
    if s != [] {
      assert '_' !in s[1..];
      SplitWithoutUnderscore(s[1..]);
      assert s == [s[0]] + s[1..];
    }
  }

  /** Splitting a string that starts with an underscore. */
  lemma SplitUnderscore(s: string)
    ensures Split("_" + s) == [""] + Split(s)
  {
    assert ("_" + s)[1..] == s;
  }

  /** Splitting a string that starts with any other character. */
  lemma SplitConsChar(ch: char, s: string)
    requires ch != '_'
    ensures Split([ch] + s) == [[ch] + Split(s)[0]] + Split(s)[1..]
  {
    assert ([ch] + s)[1..] == s;
  }

  /** Splitting at an underscore concatenates the splits of both sides. */
  lemma {:induction false} SplitConcat(a: string, b: string)
    ensures Split(a + "_" + b) == Split(a) + Split(b)
    decreases |a|
  {
    if a == [] {
      assert a + "_" + b == "_" + b;
      SplitUnderscore(b);
    } else {
      var tail := a[1..] + "_" + b;
      assert a + "_" + b == [a[0]] + tail;
      assert a == [a[0]] + a[1..];
      SplitConcat(a[1..], b);
      var left, right := Split(a[1..]), Split(b);
      if a[0] == '_' {
        SplitUnderscore(tail);
        SplitUnderscore(a[1..]);
      } else {
        SplitConsChar(a[0], tail);
        SplitConsChar(a[0], a[1..]);
        assert (left + right)[0] == left[0];
        assert (left + right)[1..] == left[1..] + right;
      }
    }
  }

  lemma CountConcat(a: string, b: string)
    ensures CountUnderscores(a + "_" + b) == CountUnderscores(a) + 1 + CountUnderscores(b)
  {
    SplitLength(a);
    SplitLength(b);
    SplitLength(a + "_" + b);
    SplitConcat(a, b);
  }

  // ---------------------------------------------------------------------
  // Encoding and decoding

  /** The tokens of a key are those of the instrument code followed by those
      of the contract date. */
  lemma SplitEncode(c: Contract)
    ensures Split(Encode(c)) == Split(c.instrument) + Split(c.dateStr)
  {
    SplitConcat(c.instrument, c.dateStr);
  }

  /** The three token-count rules, one per arity that the decoder accepts;
      a four-token key is decoded by the first rule alone. */
  lemma DecodeByTokenCount(keyname: string)
    ensures |Split(keyname)| == 4 ==>
      var t := Split(keyname); Decode(keyname) == Ok(Contract(t[0] + "_" + t[1] + "_" + t[2], t[3]))
    ensures |Split(keyname)| == 3 ==>
      var t := Split(keyname); Decode(keyname) == Ok(Contract(t[0] + "_" + t[1], t[2]))
    ensures |Split(keyname)| == 2 ==>
      var t := Split(keyname); Decode(keyname) == Ok(Contract(t[0], t[1]))
  {
  }

  /** The last token of a join is the one after its last underscore. */
  lemma {:induction false} JoinLast(ts: seq<string>)
    requires |ts| >= 2
    ensures Join(ts) == Join(ts[..|ts| - 1]) + "_" + ts[|ts| - 1]
    decreases |ts|
  {
    if |ts| > 2 {
      JoinLast(ts[1..]);
      assert ts[1..][..|ts| - 2] == ts[..|ts| - 1][1..];
    } else {
      assert ts[..1] == [ts[0]];
    }
  }

  /** Joining n underscore-free tokens puts n - 1 underscores in. */
  lemma {:induction false} CountJoin(ts: seq<string>)
    requires |ts| >= 1
    requires forall i :: 0 <= i < |ts| ==> '_' !in ts[i]
    ensures CountUnderscores(Join(ts)) == |ts| - 1
    decreases |ts|
  {
    CountWithoutUnderscore(ts[0]);
    if |ts| > 1 {
      CountJoin(ts[1..]);
      CountConcat(ts[0], Join(ts[1..]));
    }
  }

  /** Whatever the accepted arity, the decoded date is the last token and the
      decoded instrument the other tokens re-joined. */
  lemma DecodedParts(keyname: string)
    requires Decode(keyname).Ok?
    ensures var t := Split(keyname);
      Decode(keyname).value == Contract(Join(t[..|t| - 1]), t[|t| - 1])
  {
    var t := Split(keyname);
    if |t| == 2 {
      assert t[..1] == [t[0]];
    } else if |t| == 3 {
      assert t[..2][1..] == [t[1]];
    } else {
      assert t[..3][1..] == t[1..3];
      assert t[1..3][1..] == [t[2]];
      assert Join(t[1..3]) == t[1] + "_" + t[2];
      assert Join(t[..3]) == t[0] + "_" + (t[1] + "_" + t[2]);
    }
  }

  /** Decoding loses nothing on the keys it accepts: the decoded identity
      encodes back to the key, its date holds no underscore and its
      instrument code at most two. */
  lemma DecodeLosesNothing(keyname: string)
    requires Decode(keyname).Ok?
    ensures Encode(Decode(keyname).value) == keyname
    ensures '_' !in Decode(keyname).value.dateStr
    ensures CountUnderscores(Decode(keyname).value.instrument) <= 2
  {
    var t := Split(keyname);
    DecodedParts(keyname);
    JoinSplit(keyname);
    JoinLast(t);
    SplitTokens(keyname);
    CountJoin(t[..|t| - 1]);
  }

  /** Round trip: an identity whose instrument code has at most two
      underscores and whose date has none is recovered from its key. */
  lemma RoundTrip(c: Contract)
    requires CountUnderscores(c.instrument) <= 2 && '_' !in c.dateStr
    ensures Decode(Encode(c)) == Ok(c)
  {
    var i := Split(c.instrument);
    var t := Split(Encode(c));
    SplitEncode(c);
    SplitWithoutUnderscore(c.dateStr);
    SplitLength(c.instrument);
    JoinSplit(c.instrument);
    assert t == i + [c.dateStr];
    assert t[..|t| - 1] == i;
    DecodedParts(Encode(c));
  }

  /** Decoding succeeds with exactly those identities that encode to the key
      and satisfy the round-trip condition. */
  lemma DecodeExactly(keyname: string, c: Contract)
    ensures Decode(keyname) == Ok(c) <==>
      Encode(c) == keyname && '_' !in c.dateStr && CountUnderscores(c.instrument) <= 2
  {
    if Decode(keyname) == Ok(c) {
      DecodeLosesNothing(keyname);
    }
    if Encode(c) == keyname && '_' !in c.dateStr && CountUnderscores(c.instrument) <= 2 {
      RoundTrip(c);
    }
  }

  /** A key is rejected exactly when it has fewer than one or more than three
      underscores. */
  lemma DecodeRejects(keyname: string)
    ensures Decode(keyname).Err? <==> !(1 <= CountUnderscores(keyname) <= 3)
  {
    SplitLength(keyname);
  }

  /** Two contracts whose dates hold no underscore share a key only when
      they are the same contract, so writing one never touches the other. */
  lemma EncodeInjective(c: Contract, d: Contract)
    requires '_' !in c.dateStr && '_' !in d.dateStr
    requires Encode(c) == Encode(d)
    ensures c == d
  {
    SplitEncode(c);
    SplitEncode(d);
    SplitWithoutUnderscore(c.dateStr);
    SplitWithoutUnderscore(d.dateStr);
    var sc, sd := Split(c.instrument), Split(d.instrument);
    assert sc + [c.dateStr] == sd + [d.dateStr];
    assert |sc| == |sd|;
    assert c.dateStr == (sc + [c.dateStr])[|sc|];
    assert sc == (sc + [c.dateStr])[..|sc|];
    assert sd == (sd + [d.dateStr])[..|sd|];
    JoinSplit(c.instrument);
    JoinSplit(d.instrument);
  }

  /** A string without underscores has none to count. */
  lemma CountWithoutUnderscore(s: string)
    requires '_' !in s
    ensures CountUnderscores(s) == 0
  {
    SplitWithoutUnderscore(s);
    SplitLength(s);
  }

  /** Keys like GAS_US_20090700: an instrument code made of two parts and a
      plain date decode to that two-part code and the date. */
  lemma TwoPartInstrument(first: string, second: string, date: string)
    requires '_' !in first && '_' !in second && '_' !in date
    ensures Decode(first + "_" + second + "_" + date) == Ok(Contract(first + "_" + second, date))
  {
    CountConcat(first, second);
    CountWithoutUnderscore(first);
    CountWithoutUnderscore(second);
    RoundTrip(Contract(first + "_" + second, date));
  }

  /** The encoding is ambiguous: a contract whose date holds an underscore
      comes back with part of its date moved into the instrument code. */
  lemma AmbiguousDate(instrument: string, year: string, month: string)
    requires '_' !in instrument && '_' !in year && '_' !in month
    ensures Decode(Encode(Contract(instrument, year + "_" + month)))
         == Ok(Contract(instrument + "_" + year, month))
    ensures Contract(instrument + "_" + year, month) != Contract(instrument, year + "_" + month)
  {
    assert Encode(Contract(instrument, year + "_" + month)) == instrument + "_" + year + "_" + month;
    TwoPartInstrument(instrument, year, month);
    assert |instrument + "_" + year| != |instrument|;
  }
}
