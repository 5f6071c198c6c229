/** The credential file of mousepass.c (save_mouse_password / load_mouse_password) as a
    stream of fields: a count header, then one "kind time x y" record per event.
    Decimals are written with six fractional digits, so they are held here as whole
    micro-units. */
module Credential {
  import opened Gesture

  datatype Option<T> = None | Some(value: T)

  /** A field of the file: an integer (the header), a decimal with six fractional
      digits in micro-units, or a single character (the event kind). */
  datatype Token = Int(n: int) | Fixed(micros: int) | Char(c: char)

  /** What load_mouse_password leaves in the struct when it returns 1. */
  datatype Loaded = Loaded(count: int, capacity: int, events: seq<MouseEvent>)

  /** Cells allocated beyond the declared count when loading. */
  const SPARE: int := 10

  const MICROS: real := 1000000.0

  /** The value %.6f prints, in micro-units: the nearest one, a tie going to the even one. */
  function ToMicros(v: real): (r: int)
    ensures -0.5 <= r as real - v * MICROS <= 0.5
  {
    var scaled := v * MICROS;
    var f := scaled.Floor;
    var frac := scaled - f as real;
    if frac < 0.5 then f
    else if frac > 0.5 then f + 1
    else if f % 2 == 0 then f
    else f + 1
  }

  /** The value %lf reads back from a printed decimal. */
  function FromMicros(m: int): real
  {
    m as real / MICROS
  }

  /** Printing loses at most half a micro-unit. */
  lemma ToMicrosNearest(v: real)
    ensures -0.5 <= ToMicros(v) as real - v * MICROS <= 0.5
    ensures -0.0000005 <= FromMicros(ToMicros(v)) - v <= 0.0000005
  {
    var d := ToMicros(v) as real - v * MICROS;
    assert FromMicros(ToMicros(v)) - v == d / MICROS;
  }

  /** A value already on the micro-unit grid is printed exactly. */
  lemma ToMicrosExact(m: int)
    ensures ToMicros(FromMicros(m)) == m
  {
    assert FromMicros(m) * MICROS == m as real;
  }

  /** The four fields save_mouse_password writes for one event: kind, time, x, y. */
  function Record(e: MouseEvent): seq<Token>
  {
    [Char(e.kind), Fixed(ToMicros(e.time)), Fixed(ToMicros(e.x)), Fixed(ToMicros(e.y))]
  }

  function Records(s: seq<MouseEvent>): (r: seq<Token>)
    ensures |r| == 4 * |s|
  {
    if s == [] then [] else Record(s[0]) + Records(s[1..])
  }

  /** save_mouse_password: the count, then one record per event. */
  function Serialize(s: seq<MouseEvent>): (r: seq<Token>)
    ensures |r| == 1 + 4 * |s| && r[0] == Int(|s|) && r[1..] == Records(s)
  {
    [Int(|s|)] + Records(s)
  }

  /** What a gesture is after a trip through the file: every decimal rounded to six digits. */
  function Rounded(e: MouseEvent): MouseEvent
  {
    MouseEvent(FromMicros(ToMicros(e.x)), FromMicros(ToMicros(e.y)), e.kind, FromMicros(ToMicros(e.time)))
  }

  function Quantized(s: seq<MouseEvent>): (r: seq<MouseEvent>)
    ensures |r| == |s|
  {
    seq(|s|, i requires 0 <= i < |s| => Rounded(s[i]))
  }

  /** Every time and coordinate is printed with six fractional digits and no rounding. */
  predicate OnGrid(s: seq<MouseEvent>)
  {
    forall i :: 0 <= i < |s| ==>
      FromMicros(ToMicros(s[i].x)) == s[i].x && FromMicros(ToMicros(s[i].y)) == s[i].y
      && FromMicros(ToMicros(s[i].time)) == s[i].time
  }

  /** The value %lf reads from a field, if it is a number. */
  function Number(t: Token): Option<real>
  {
    match t
    case Fixed(m) => Some(FromMicros(m))
    case Int(n) => Some(n as real)
    case Char(_) => None
  }

  /** One "%c %lf %lf %lf" conversion at the head of toks; None unless all four succeed. */
  function ParseRecord(toks: seq<Token>): (r: Option<MouseEvent>)
    ensures r.Some? <==> |toks| >= 4 && toks[0].Char? && !toks[1].Char? && !toks[2].Char? && !toks[3].Char?
    ensures r.Some? ==>
      r.value.kind == toks[0].c && Number(toks[1]) == Some(r.value.time)
      && Number(toks[2]) == Some(r.value.x) && Number(toks[3]) == Some(r.value.y)
  {
    if |toks| < 4 || !toks[0].Char? then None
    else
      match (Number(toks[1]), Number(toks[2]), Number(toks[3]))
      case (Some(t), Some(x), Some(y)) => Some(MouseEvent(x, y, toks[0].c, t))
      case _ => None
  }

  /** The record loop: up to want records, stopping at the first one that does not parse. */
  function ParseRecords(toks: seq<Token>, want: nat): (r: seq<MouseEvent>)
    ensures |r| <= want
  {
    if want == 0 then []
    else
      match ParseRecord(toks)
      case None => []
      case Some(e) => [e] + ParseRecords(toks[4..], want - 1)
  }

  /** load_mouse_password. None (return 0) when there is no file or the header is not an
      integer. Otherwise the declared count is stored first and the capacity set to it plus
      SPARE; a positive count is then lowered to the number of records that parsed, while
      zero or a negative count is kept as it is and nothing is read. */
  function Load(file: Option<seq<Token>>): (r: Option<Loaded>)
    ensures r.None? <==> file.None? || |file.value| == 0 || !file.value[0].Int?
    ensures r.Some? ==> r.value.capacity == file.value[0].n + SPARE
    ensures r.Some? && file.value[0].n <= 0 ==> r.value.count == file.value[0].n && r.value.events == []
    ensures r.Some? && file.value[0].n > 0 ==> r.value.count == |r.value.events| <= file.value[0].n
  {
    match file
    case None => None
    case Some(toks) =>
      if |toks| == 0 || !toks[0].Int? then None
      else
        var declared := toks[0].n;
        if declared <= 0 then Some(Loaded(declared, declared + SPARE, []))
        else
          var events := ParseRecords(toks[1..], declared);
          Some(Loaded(|events|, declared + SPARE, events))
  }

  lemma RecordsSplit(s: seq<MouseEvent>, rest: seq<Token>)
    requires |s| > 0
    ensures (Records(s) + rest)[..4] == Record(s[0])
    ensures (Records(s) + rest)[4..] == Records(s[1..]) + rest
  {
    var head := Record(s[0]);
    var tail := Records(s[1..]) + rest;
    calc {
      Records(s) + rest;
      (head + Records(s[1..])) + rest;
      head + tail;
    }
    SplitAfter(head, tail);
  }

  lemma SplitAfter(head: seq<Token>, tail: seq<Token>)
    requires |head| == 4
    ensures (head + tail)[..4] == head && (head + tail)[4..] == tail
  {
  }

  lemma ParseRounded(e: MouseEvent, rest: seq<Token>)
    ensures ParseRecord(Record(e) + rest) == Some(Rounded(e))
  {
  }

  /** The record loop reads back exactly the records written before it, as far as it is
      asked to, and then carries on into whatever follows them. */
  lemma {:induction false} ParseRecordsOfRecords(s: seq<MouseEvent>, rest: seq<Token>, want: nat)
    ensures want <= |s| ==> ParseRecords(Records(s) + rest, want) == Quantized(s)[..want]
    ensures want > |s| ==> ParseRecords(Records(s) + rest, want) == Quantized(s) + ParseRecords(rest, want - |s|)
  {
    if want > 0 && |s| > 0 {
      RecordsSplit(s, rest);
      ParseRounded(s[0], Records(s[1..]) + rest);
      assert Records(s) + rest == Record(s[0]) + (Records(s[1..]) + rest);
      ParseRecordsOfRecords(s[1..], rest, want - 1);
      assert Quantized(s) == [Rounded(s[0])] + Quantized(s[1..]);
      if want <= |s| {
        assert Quantized(s)[..want] == [Rounded(s[0])] + Quantized(s[1..])[..want - 1];
      }
    } else if want > 0 {
      assert Records(s) + rest == rest;
      assert Quantized(s) == [];
    }
  }

  /** Loading what was saved gives back the gesture, every decimal rounded to six digits,
      with count |s| and capacity |s| + SPARE. */
  lemma LoadSerialized(s: seq<MouseEvent>)
    ensures Load(Some(Serialize(s))) == Some(Loaded(|s|, |s| + SPARE, Quantized(s)))
  {
    var toks := Serialize(s);
    assert toks[1..] == Records(s) + [];
    if |s| > 0 {
      ParseRecordsOfRecords(s, [], |s|);
      assert Quantized(s)[..|s|] == Quantized(s);
    }
  }

  /** A gesture whose decimals all have at most six fractional digits survives the file unchanged. */
  lemma LoadSerializedOnGrid(s: seq<MouseEvent>)
    requires OnGrid(s)
    ensures Load(Some(Serialize(s))) == Some(Loaded(|s|, |s| + SPARE, s))
  {
    LoadSerialized(s);
    assert Quantized(s) == s;
  }

  /** Saving loses at most half a micro-unit in every field. */
  lemma QuantizedIsClose(s: seq<MouseEvent>)
    ensures forall i :: 0 <= i < |s| ==>
      var r := Quantized(s)[i];
      r.kind == s[i].kind
      && -0.0000005 <= r.x - s[i].x <= 0.0000005
      && -0.0000005 <= r.y - s[i].y <= 0.0000005
      && -0.0000005 <= r.time - s[i].time <= 0.0000005
  {
    forall i | 0 <= i < |s|
      ensures var r := Quantized(s)[i];
        r.kind == s[i].kind
        && -0.0000005 <= r.x - s[i].x <= 0.0000005
        && -0.0000005 <= r.y - s[i].y <= 0.0000005
        && -0.0000005 <= r.time - s[i].time <= 0.0000005
    {
      ToMicrosNearest(s[i].x);
      ToMicrosNearest(s[i].y);
      ToMicrosNearest(s[i].time);
    }
  }

  /** Loading a file with a positive header reads the records that follow it. */
  lemma LoadPositiveHeader(declared: int, body: seq<Token>)
    requires declared > 0
    ensures var events := ParseRecords(body, declared);
      Load(Some([Int(declared)] + body)) == Some(Loaded(|events|, declared + SPARE, events))
  {
    assert ([Int(declared)] + body)[1..] == body;
  }

  /** No record is read once the next four fields do not form a whole record. */
  lemma NothingAfterJunk(junk: seq<Token>, want: nat)
    requires ParseRecord(junk).None?
    ensures ParseRecords(junk, want) == []
  {
    assert ParseRecord(junk) == None;
  }

  /** Lenient loading: when the header promises at least |s| events but the records stop
      after |s| (the file ends, is cut inside a record, or the next fields do not form a
      record), the gesture is cut there and loading still succeeds. */
  lemma LoadTruncated(s: seq<MouseEvent>, declared: int, junk: seq<Token>)
    requires declared >= |s| && declared > 0
    requires ParseRecord(junk).None?
    ensures Load(Some([Int(declared)] + (Records(s) + junk)))
      == Some(Loaded(|s|, declared + SPARE, Quantized(s)))
  {
    LoadPositiveHeader(declared, Records(s) + junk);
    ParseRecordsOfRecords(s, junk, declared);
    if declared == |s| {
      assert Quantized(s)[..declared] == Quantized(s);
    } else {
      NothingAfterJunk(junk, declared - |s|);
      assert Quantized(s) + [] == Quantized(s);
    }
  }

  /** Records beyond the declared count are never read. */
  lemma LoadStopsAtDeclared(s: seq<MouseEvent>, declared: nat, rest: seq<Token>)
    requires 0 < declared <= |s|
    ensures Load(Some([Int(declared)] + (Records(s) + rest)))
      == Some(Loaded(declared, declared + SPARE, Quantized(s[..declared])))
  {
    LoadPositiveHeader(declared, Records(s) + rest);
    ParseRecordsOfRecords(s, rest, declared);
    PrefixQuantized(s, declared);
  }

  lemma PrefixQuantized(s: seq<MouseEvent>, n: nat)
    requires n <= |s|
    ensures Quantized(s)[..n] == Quantized(s[..n])
  {
    var q := Quantized(s)[..n];
    forall i | 0 <= i < n ensures q[i] == Quantized(s[..n])[i] {
      assert s[..n][i] == s[i];
    }
  }
}
