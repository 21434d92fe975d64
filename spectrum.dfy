/** The spectral data model of NIRScanNano/spectrum.py: the array containers
    (Wavelength, Absorbance, Signal), the mutable metadata header, the
    NIRSpectrum aggregate with its length invariant, the header part of the
    instrument file reader, and the averaging of spectra. */
module Spectra {
  import opened Errors
  import opened Text
  import opened Stats

  // ---------------------------------------------------------------------------
  // Array containers

  datatype Kind = WavelengthKind | AbsorbanceKind | SignalKind

  /** DataContainer and its three subclasses: a tag for the subclass and the
      numpy array it wraps. */
  datatype DataContainer = DataContainer(kind: Kind, data: seq<real>)

  type Wavelength = c: DataContainer | c.kind == WavelengthKind
    witness DataContainer(WavelengthKind, [])

  type Absorbance = c: DataContainer | c.kind == AbsorbanceKind
    witness DataContainer(AbsorbanceKind, [])

  type Signal = c: DataContainer | c.kind == SignalKind
    witness DataContainer(SignalKind, [])

  /** DataContainer.min(): an element no larger than any other. */
  function Min(c: DataContainer): (r: Result<real>)
    ensures r.Ok? <==> |c.data| > 0
    ensures r.Err? ==> r.error == ValueError
    ensures r.Ok? ==> r.value in c.data && forall i :: 0 <= i < |c.data| ==> r.value <= c.data[i]
  {
    MinOf(c.data)
  }

  /** DataContainer.max(): an element no smaller than any other. */
  function Max(c: DataContainer): (r: Result<real>)
    ensures r.Ok? <==> |c.data| > 0
    ensures r.Err? ==> r.error == ValueError
    ensures r.Ok? ==> r.value in c.data && forall i :: 0 <= i < |c.data| ==> c.data[i] <= r.value
  {
    MaxOf(c.data)
  }

  /** The default tolerances of np.allclose. */
  const AbsoluteTolerance: real := 0.00000001
  const RelativeTolerance: real := 0.00001

  /** np.isclose(a, b) for finite values; note that only b scales the tolerance. */
  predicate IsClose(a: real, b: real) {
    Abs(a - b) <= AbsoluteTolerance + RelativeTolerance * Abs(b)
  }

  /** The length numpy broadcasts two one-dimensional arrays to, if any. */
  function BroadcastLength(n: nat, m: nat): Option<nat> {
    if n == m then Some(n)
    else if n == 1 then Some(m)
    else if m == 1 then Some(n)
    else None
  }

  /** Element i of s once s is broadcast: a one-element array repeats its element. */
  function Broadcast(s: seq<real>, i: nat): real
    requires |s| == 1 || i < |s|
  {
    if |s| == 1 then s[0] else s[i]
  }

  /** np.allclose(a, b): every broadcast pair of elements is close; arrays
      whose lengths do not broadcast raise ValueError. */
  function AllClose(a: seq<real>, b: seq<real>): (r: Result<bool>)
    ensures r.Err? <==> BroadcastLength(|a|, |b|).None?
    ensures r.Err? ==> r.error == ValueError
    ensures |a| == |b| ==> r == Ok(forall i :: 0 <= i < |a| ==> IsClose(a[i], b[i]))
    ensures r.Ok? ==> (r.value <==> forall i :: 0 <= i < BroadcastLength(|a|, |b|).value ==>
                                     IsClose(Broadcast(a, i), Broadcast(b, i)))
  {
    match BroadcastLength(|a|, |b|)
    case None => Err(ValueError)
    case Some(n) =>
      assert |a| == |b| ==> forall i :: 0 <= i < n ==> Broadcast(a, i) == a[i] && Broadcast(b, i) == b[i];
      Ok(forall i | 0 <= i < n :: IsClose(Broadcast(a, i), Broadcast(b, i)))
  }

  /** DataContainer.__eq__: approximate equality of the wrapped arrays. */
  function Equal(x: DataContainer, y: DataContainer): (r: Result<bool>)
    ensures r.Err? <==> BroadcastLength(|x.data|, |y.data|).None?
    ensures r.Err? ==> r.error == ValueError
    ensures |x.data| == |y.data| ==> r == Ok(forall i :: 0 <= i < |x.data| ==> IsClose(x.data[i], y.data[i]))
    ensures r.Ok? ==> (r.value <==> forall i :: 0 <= i < BroadcastLength(|x.data|, |y.data|).value ==>
                                     IsClose(Broadcast(x.data, i), Broadcast(y.data, i)))
    ensures x.data == y.data ==> r == Ok(true)
  {
    AllCloseReflexive(x.data);
    AllClose(x.data, y.data)
  }

  /** DataContainer.copy(): a container of the same subclass holding the same data. */
  function Copy(c: DataContainer): (r: DataContainer)
    ensures r.kind == c.kind && r.data == c.data
  {
    DataContainer(c.kind, c.data)
  }

  /** Every array is close to itself. */
  lemma AllCloseReflexive(a: seq<real>)
    ensures AllClose(a, a) == Ok(true)
  {
    forall i | 0 <= i < |a| ensures IsClose(a[i], a[i]) {
      assert Abs(a[i] - a[i]) == 0.0;
    }
  }

  /** A copy compares equal to its original. */
  lemma CopyIsEqual(c: DataContainer)
    ensures Equal(Copy(c), c) == Ok(true)
  {
    AllCloseReflexive(c.data);
  }

  /** The tolerance is relative to the second argument only, so swapping the
      arguments can change the verdict. */
  lemma AllCloseIsAsymmetric()
    ensures AllClose([1.00001001000001], [1.0]) == Ok(false)
    ensures AllClose([1.0], [1.00001001000001]) == Ok(true)
  {
    var x, y := 1.00001001000001, 1.0;
    assert Abs(x - y) == 0.00001001000001;
    assert Abs(y - x) == 0.00001001000001;
    assert !IsClose(x, y);
    assert IsClose(y, x);
    assert Broadcast([x], 0) == x && Broadcast([y], 0) == y;
  }

  /** Absorbance.zero_from_wavelength(w): all-zero absorbance on the grid w. */
  function ZeroFromWavelength(w: Wavelength): (a: Absorbance)
    ensures |a.data| == |w.data|
    ensures forall i :: 0 <= i < |a.data| ==> a.data[i] == 0.0
  {
    DataContainer(AbsorbanceKind, seq(|w.data|, _ => 0.0))
  }

  // ---------------------------------------------------------------------------
  // The metadata header

  /** The values the reader stores: integers, strings, float arrays. */
  datatype HeaderValue = IntValue(i: int) | StrValue(s: string) | FloatArray(xs: seq<real>)

  predicate NoDuplicates<T(==)>(s: seq<T>) {
    forall i, j :: 0 <= i < j < |s| ==> s[i] != s[j]
  }

  lemma {:induction false} DistinctCardinality<T>(s: seq<T>)
    requires NoDuplicates(s)
    ensures |set x | x in s| == |s|
  {
    if s != [] {
      DistinctCardinality(s[1..]);
      assert (set x | x in s) == {s[0]} + (set x | x in s[1..]);
      assert s[0] !in s[1..] by {
        assert forall j :: 0 <= j < |s| - 1 ==> s[1..][j] == s[j + 1];
      }
    }
  }

  /** NIRSpectrumHeader: a string-keyed dictionary, updated in place, that
      remembers the order in which keys were first inserted. */
  class Header {
    var storage: map<string, HeaderValue>
    var order: seq<string>

    ghost predicate Valid()
      reads this
    {
      NoDuplicates(order) && forall k :: k in storage <==> k in order
    }

    constructor ()
      ensures Valid() && storage == map[] && order == []
    {
      storage := map[];
      order := [];
    }

    /** h[key] = value. */
    method Set(key: string, value: HeaderValue)
      requires Valid()
      modifies this
      ensures Valid()
      ensures storage == old(storage)[key := value]
      ensures order == if key in old(storage) then old(order) else old(order) + [key]
    {
      if key !in storage {
        order := order + [key];
      }
      storage := storage[key := value];
    }

    /** h[key]: the stored value, or KeyError. */
    function Get(key: string): (r: Result<HeaderValue>)
      reads this
      ensures r.Ok? <==> key in storage
      ensures r.Ok? ==> r.value == storage[key]
      ensures r.Err? ==> r.error == KeyError
    {
      if key in storage then Ok(storage[key]) else Err(KeyError)
    }

    /** h.get(key, default), where a key of None is never present. */
    function GetOr(key: Option<string>, default: HeaderValue): (v: HeaderValue)
      reads this
      ensures key.Some? && key.value in storage ==> v == storage[key.value]
      ensures key.None? || key.value !in storage ==> v == default
    {
      if key.Some? && key.value in storage then storage[key.value] else default
    }

    /** len(h): the number of distinct keys. */
    function Len(): (n: nat)
      reads this
      requires Valid()
      ensures n == |storage| && n == |order|
    {
      DistinctCardinality(order);
      assert storage.Keys == set k | k in order;
      |storage|
    }

    /** iter(h): every key exactly once, in insertion order. */
    function Keys(): (ks: seq<string>)
      reads this
      requires Valid()
      ensures NoDuplicates(ks) && |ks| == Len()
      ensures forall k :: k in ks <==> k in storage
      ensures ks == order
    {
      order
    }

    /** copy.deepcopy(h): a fresh header with the same contents; DeepCopy uses it. */
    method Clone() returns (h: Header)
      requires Valid()
      ensures fresh(h) && h.Valid()
      ensures h.storage == storage && h.order == order
    {
      h := new Header();
      h.storage := storage;
      h.order := order;
    }
  }

  /** copy.deepcopy applied to an optional header. */
  method DeepCopy(h: Header?) returns (c: Header?)
    requires h != null ==> h.Valid()
    ensures h == null <==> c == null
    ensures c != null ==> fresh(c) && c.Valid() && c.storage == h.storage && c.order == h.order
  {
    if h == null {
      c := null;
    } else {
      c := h.Clone();
    }
  }

  // ---------------------------------------------------------------------------
  // The spectrum aggregate

  datatype Spectrum = Spectrum(
    wavelength: Wavelength,
    absorbance: Absorbance,
    referenceSignal: Option<Signal>,
    sampleSignal: Option<Signal>,
    header: Header?)

  /** An NIRSpectrum: its wavelength and absorbance arrays have one length. */
  type NIRSpectrum = s: Spectrum | |s.wavelength.data| == |s.absorbance.data|
    witness Spectrum(DataContainer(WavelengthKind, []), DataContainer(AbsorbanceKind, []), None, None, null)

  /** The NIRSpectrum constructor: DimensionError exactly when the lengths differ. */
  function NewSpectrum(w: Wavelength, a: Absorbance, referenceSignal: Option<Signal>,
                       sampleSignal: Option<Signal>, header: Header?): (r: Result<NIRSpectrum>)
    ensures r.Err? <==> |w.data| != |a.data|
    ensures r.Err? ==> r.error == DimensionError
    ensures r.Ok? ==> r.value == Spectrum(w, a, referenceSignal, sampleSignal, header)
  {
    if |w.data| != |a.data| then Err(DimensionError)
    else Ok(Spectrum(w, a, referenceSignal, sampleSignal, header))
  }

  /** len(spectrum): the length of the wavelength axis, which is also that of the absorbance. */
  function Length(s: NIRSpectrum): (n: nat)
    ensures n == |s.wavelength.data| && n == |s.absorbance.data|
  {
    |s.wavelength.data|
  }

  // ---------------------------------------------------------------------------
  // The header lines of an instrument export (read_spectrum)

  datatype HeaderEntry = HeaderEntry(key: string, value: HeaderValue)

  /** Keys whose values are coefficient arrays. */
  predicate IsArrayKey(key: string) {
    StartsWith(key, "Pixel") || StartsWith(key, "Shift")
  }

  /** The key of a header line: its first field stripped, with every ':' removed. */
  function HeaderKey(field: string): (k: string)
    ensures ':' !in k
  {
    RemoveChar(Strip(field), ':')
  }

  /** [v for v in values if v.strip()]: the fields that are not blank, unstripped and in order. */
  function NonBlank(fields: seq<string>): (r: seq<string>)
    ensures |r| <= |fields|
    ensures forall v :: v in r <==> v in fields && !AllSpace(v)
  {
    if fields == [] then []
    else (if AllSpace(fields[0]) then [] else [fields[0]]) + NonBlank(fields[1..])
  }

  /** A field that is not blank is kept as often as it occurs; a blank one never is. */
  lemma {:induction false} NonBlankCount(fields: seq<string>)
    ensures forall v :: multiset(NonBlank(fields))[v] == if AllSpace(v) then 0 else multiset(fields)[v]
  {
    if fields != [] {
      assert fields == [fields[0]] + fields[1..];
      NonBlankCount(fields[1..]);
    }
  }

  lemma ConcatAssoc<T>(x: seq<T>, y: seq<T>, z: seq<T>)
    ensures x + (y + z) == (x + y) + z
  {
  }

  /** The filter keeps the order of the fields: it works piece by piece. */
  lemma {:induction false} NonBlankAppend(a: seq<string>, b: seq<string>)
    ensures NonBlank(a + b) == NonBlank(a) + NonBlank(b)
  {
    hide AllSpace;
    if a != [] {
      var h := if AllSpace(a[0]) then [] else [a[0]];
      assert (a + b)[1..] == a[1..] + b && (a + b)[0] == a[0];
      assert NonBlank(a + b) == h + NonBlank(a[1..] + b);
      assert NonBlank(a) == h + NonBlank(a[1..]);
      hide NonBlank;
      NonBlankAppend(a[1..], b);
      ConcatAssoc(h, NonBlank(a[1..]), NonBlank(b));
    } else {
      assert a + b == b;
    }
  }

  /** values[0] after the filter is the first field that is not blank. */
  lemma {:induction false} NonBlankFirst(fields: seq<string>, j: nat)
    requires j < |fields| && !AllSpace(fields[j])
    requires forall i :: 0 <= i < j ==> AllSpace(fields[i])
    ensures NonBlank(fields) != [] && NonBlank(fields)[0] == fields[j]
  {
    hide AllSpace;
    if j > 0 {
      assert AllSpace(fields[0]);
      assert forall i :: 0 <= i < j - 1 ==> fields[1..][i] == fields[i + 1];
      NonBlankFirst(fields[1..], j - 1);
    }
  }

  /** [float(v) for v in values], where toFloat stands for Python's float()
      and None for the ValueError it raises. */
  function ToFloats(fields: seq<string>, toFloat: string -> Option<real>): (r: Result<seq<real>>)
    ensures r.Ok? <==> forall i :: 0 <= i < |fields| ==> toFloat(fields[i]).Some?
    ensures r.Err? ==> r.error == ValueError
    ensures r.Ok? ==> |r.value| == |fields| &&
                      forall i :: 0 <= i < |fields| ==> toFloat(fields[i]) == Some(r.value[i])
  {
    if fields == [] then Ok([])
    else match toFloat(fields[0])
      case None => Err(ValueError)
      case Some(x) =>
        match ToFloats(fields[1..], toFloat)
        case Err(e) => Err(e)
        case Ok(xs) =>
          assert forall i :: 1 <= i < |fields| ==> fields[i] == fields[1..][i - 1];
          Ok([x] + xs)
  }

  /** A scalar header value: int(v) when v.isdigit(), v itself otherwise. */
  function ScalarValue(v: string): (hv: HeaderValue)
    ensures IsDigits(v) <==> hv.IntValue?
    ensures hv.IntValue? ==> IsDigits(v) && hv.i == ParseDigits(v)
    ensures hv.StrValue? ==> hv.s == v
    ensures !hv.FloatArray?
  {
    if IsDigits(v) then IntValue(ParseDigits(v)) else StrValue(v)
  }

  /** The body of the header loop of read_spectrum, for one line. */
  function ParseHeaderLine(line: string, delimiter: string, toFloat: string -> Option<real>): (r: Result<HeaderEntry>)
    ensures r.Err? ==> r.error == ValueError || r.error == IndexError
    ensures r.Ok? ==> delimiter != [] && r.value.key == HeaderKey(Split(line, delimiter)[0])
    ensures r.Ok? ==> (r.value.value.FloatArray? <==> IsArrayKey(r.value.key))
  {
    if delimiter == [] then Err(ValueError)
    else
      var fields := Split(line, delimiter);
      var key := HeaderKey(fields[0]);
      var values := NonBlank(fields[1..]);
      if IsArrayKey(key) then
        match ToFloats(values, toFloat)
        case Err(e) => Err(e)
        case Ok(xs) => Ok(HeaderEntry(key, FloatArray(xs)))
      else if values == [] then Err(IndexError)
      else Ok(HeaderEntry(key, ScalarValue(values[0])))
  }

  /** An empty delimiter is a ValueError, and a stored key never contains ':'. */
  lemma HeaderLineKey(line: string, delimiter: string, toFloat: string -> Option<real>)
    ensures delimiter == [] ==> ParseHeaderLine(line, delimiter, toFloat) == Err(ValueError)
    ensures ParseHeaderLine(line, delimiter, toFloat).Ok? ==> ':' !in ParseHeaderLine(line, delimiter, toFloat).value.key
  {
  }

  /** A scalar line fails, with IndexError, exactly when every field after the key is blank. */
  lemma ScalarHeaderLineFails(line: string, delimiter: string, toFloat: string -> Option<real>)
    requires delimiter != [] && !IsArrayKey(HeaderKey(Split(line, delimiter)[0]))
    ensures ParseHeaderLine(line, delimiter, toFloat).Err? <==>
            forall v :: v in Split(line, delimiter)[1..] ==> AllSpace(v)
    ensures ParseHeaderLine(line, delimiter, toFloat).Err? ==>
            ParseHeaderLine(line, delimiter, toFloat).error == IndexError
  {
    var values := NonBlank(Split(line, delimiter)[1..]);
    if values != [] {
      assert values[0] in values;
    }
  }

  /** An array line fails, with ValueError, exactly when one of its non-blank
      fields is not a float literal. */
  lemma ArrayHeaderLineFails(line: string, delimiter: string, toFloat: string -> Option<real>)
    requires delimiter != [] && IsArrayKey(HeaderKey(Split(line, delimiter)[0]))
    ensures ParseHeaderLine(line, delimiter, toFloat).Err? <==>
            exists v :: v in NonBlank(Split(line, delimiter)[1..]) && toFloat(v).None?
    ensures ParseHeaderLine(line, delimiter, toFloat).Err? ==>
            ParseHeaderLine(line, delimiter, toFloat).error == ValueError
  {
    hide Split, Strip, RemoveChar, NonBlank, ToFloats, ScalarValue;
    var fields := Split(line, delimiter);
    var values := NonBlank(fields[1..]);
    var xs := ToFloats(values, toFloat);
    assert ParseHeaderLine(line, delimiter, toFloat).Err? <==> xs.Err?;
    if exists v :: v in values && toFloat(v).None? {
      var v :| v in values && toFloat(v).None?;
      var i :| 0 <= i < |values| && values[i] == v;
      assert xs.Err?;
    }
  }

  /** For a Pixel/Shift key whose non-blank fields all convert, the stored
      value is the float of every non-blank field, in order. */
  lemma ArrayLineParses(line: string, delimiter: string, toFloat: string -> Option<real>)
    requires delimiter != [] && IsArrayKey(HeaderKey(Split(line, delimiter)[0]))
    requires forall v :: v in NonBlank(Split(line, delimiter)[1..]) ==> toFloat(v).Some?
    ensures var r := ParseHeaderLine(line, delimiter, toFloat);
            var values := NonBlank(Split(line, delimiter)[1..]);
            && r.Ok? && r.value.key == HeaderKey(Split(line, delimiter)[0])
            && r.value.value.FloatArray? && |r.value.value.xs| == |values|
            && forall i :: 0 <= i < |values| ==> toFloat(values[i]) == Some(r.value.value.xs[i])
  {
    hide Split, Strip, RemoveChar, NonBlank, ToFloats, ScalarValue;
    var fields := Split(line, delimiter);
    var values := NonBlank(fields[1..]);
    assert forall i :: 0 <= i < |values| ==> toFloat(values[i]).Some? by {
      forall i | 0 <= i < |values| ensures toFloat(values[i]).Some? {
        assert values[i] in values;
      }
    }
  }

  /** For any other key, the stored value comes from the first value field
      that is not blank, taken unstripped, wherever it stands after the key. */
  lemma ScalarLineFirstValue(line: string, delimiter: string, toFloat: string -> Option<real>, j: nat)
    requires delimiter != [] && !IsArrayKey(HeaderKey(Split(line, delimiter)[0]))
    requires 1 <= j < |Split(line, delimiter)| && !AllSpace(Split(line, delimiter)[j])
    requires forall i :: 1 <= i < j ==> AllSpace(Split(line, delimiter)[i])
    ensures ParseHeaderLine(line, delimiter, toFloat)
            == Ok(HeaderEntry(HeaderKey(Split(line, delimiter)[0]), ScalarValue(Split(line, delimiter)[j])))
  {
    hide Split, Strip, RemoveChar, NonBlank, ToFloats, ScalarValue, AllSpace, HeaderKey;
    var fields := Split(line, delimiter);
    var rest := fields[1..];
    forall i | 0 <= i < j - 1 ensures AllSpace(rest[i]) {
      assert rest[i] == fields[i + 1];
    }
    assert rest[j - 1] == fields[j];
    NonBlankFirst(rest, j - 1);
    var values := NonBlank(rest);
    assert values != [] && values[0] == fields[j];
  }

  /** A key that the parser returns unchanged: no ':' and no delimiter in it,
      no whitespace at its ends, and not an array key. */
  predicate PlainKey(key: string, delimiter: string)
    requires |delimiter| == 1
  {
    && ':' !in key && delimiter[0] !in key
    && (key != [] ==> !IsSpace(key[0]) && !IsSpace(key[|key| - 1]))
    && !IsArrayKey(key)
  }

  /** A delimiter of one character that is neither ':' nor a digit nor whitespace. */
  predicate PlainDelimiter(delimiter: string) {
    |delimiter| == 1 && delimiter[0] != ':' && !IsDigit(delimiter[0]) && !IsSpace(delimiter[0])
  }

  lemma KeyFieldParses(key: string, delimiter: string)
    requires PlainDelimiter(delimiter) && PlainKey(key, delimiter)
    ensures HeaderKey(key + ":") == key
  {
    StripUnpadded(key + ":");
    RemoveCharAppend(key, ":", ':');
    RemoveCharAbsent(key, ':');
    assert RemoveChar(":", ':') == [];
  }

  lemma DigitsHaveNoDelimiter(n: nat, delimiter: string)
    requires PlainDelimiter(delimiter)
    ensures delimiter[0] !in NatToString(n)
    ensures !AllSpace(NatToString(n))
  {
    var s := NatToString(n);
    assert !IsSpace(s[0]);
  }

  /** A line that splits into "key:", a non-blank value and further fields
      stores the scalar reading of that value under key. */
  lemma ScalarLineParses(line: string, delimiter: string, toFloat: string -> Option<real>,
                         key: string, value: string, tail: seq<string>)
    requires PlainDelimiter(delimiter) && PlainKey(key, delimiter)
    requires Split(line, delimiter) == [key + ":", value] + tail
    requires !AllSpace(value)
    ensures ParseHeaderLine(line, delimiter, toFloat) == Ok(HeaderEntry(key, ScalarValue(value)))
  {
    hide Split, Strip, RemoveChar, ToFloats, ScalarValue;
    var fields := Split(line, delimiter);
    KeyFieldParses(key, delimiter);
    assert fields[0] == key + ":";
    var rest := fields[1..];
    assert rest == [value] + tail;
    assert rest[0] == value && rest[1..] == tail;
    var values := NonBlank(rest);
    assert values == [value] + NonBlank(tail);
    assert values != [] && values[0] == value;
    assert !IsArrayKey(key);
  }

  lemma SplitIntegerLine(key: string, n: nat, delimiter: string)
    requires PlainDelimiter(delimiter) && PlainKey(key, delimiter)
    ensures Split(key + ":" + delimiter + NatToString(n) + delimiter + "\n", delimiter)
            == [key + ":", NatToString(n)] + ["\n"]
  {
    var digits := NatToString(n);
    var line := key + ":" + delimiter + digits + delimiter + "\n";
    assert line == (key + ":") + delimiter + (digits + delimiter + "\n");
    DigitsHaveNoDelimiter(n, delimiter);
    SplitAfterField(key + ":", delimiter, digits + delimiter + "\n");
    SplitAfterField(digits, delimiter, "\n");
    SplitWithoutSeparator("\n", delimiter);
  }

  lemma SplitNewlineLine(key: string, n: nat, delimiter: string)
    requires PlainDelimiter(delimiter) && PlainKey(key, delimiter)
    ensures Split(key + ":" + delimiter + NatToString(n) + "\n", delimiter)
            == [key + ":", NatToString(n) + "\n"] + []
  {
    var digits := NatToString(n);
    var line := key + ":" + delimiter + digits + "\n";
    assert line == (key + ":") + delimiter + (digits + "\n");
    DigitsHaveNoDelimiter(n, delimiter);
    SplitAfterField(key + ":", delimiter, digits + "\n");
    assert delimiter[0] !in digits + "\n";
    SplitWithoutSeparator(digits + "\n", delimiter);
  }

  /** A line "key:<d>n<d>\n" as the instrument writes it reads back as the
      integer n under key: the trailing delimiter keeps the newline out of
      the value. */
  lemma IntegerLineRoundTrip(key: string, n: nat, delimiter: string, toFloat: string -> Option<real>)
    requires PlainDelimiter(delimiter) && PlainKey(key, delimiter)
    ensures ParseHeaderLine(key + ":" + delimiter + NatToString(n) + delimiter + "\n", delimiter, toFloat)
            == Ok(HeaderEntry(key, IntValue(n)))
  {
    SplitIntegerLine(key, n, delimiter);
    DigitsHaveNoDelimiter(n, delimiter);
    ScalarLineParses(key + ":" + delimiter + NatToString(n) + delimiter + "\n", delimiter, toFloat,
                     key, NatToString(n), ["\n"]);
    ParseNatToString(n);
  }

  /** A line "key:<d>n\n" whose value is the last field keeps its line
      break, so the value is not all digits and stays a string. */
  lemma TrailingNewlineKeepsString(key: string, n: nat, delimiter: string, toFloat: string -> Option<real>)
    requires PlainDelimiter(delimiter) && PlainKey(key, delimiter)
    ensures ParseHeaderLine(key + ":" + delimiter + NatToString(n) + "\n", delimiter, toFloat)
            == Ok(HeaderEntry(key, StrValue(NatToString(n) + "\n")))
  {
    var value := NatToString(n) + "\n";
    SplitNewlineLine(key, n, delimiter);
    assert !AllSpace(value) by { assert !IsSpace(value[0]); }
    ScalarLineParses(key + ":" + delimiter + NatToString(n) + "\n", delimiter, toFloat, key, value, []);
    assert !IsDigits(value) by { assert !IsDigit(value[|value| - 1]); }
  }

  /** The line body of the header loop with its delimiter and float() fixed. */
  function HeaderLineParser(delimiter: string, toFloat: string -> Option<real>): string -> Result<HeaderEntry> {
    line => ParseHeaderLine(line, delimiter, toFloat)
  }

  /** The header loop of read_spectrum as a whole, for any line body parse:
      the entries of the first nhead lines, StopIteration when the file has
      fewer lines, or the error of the first line that fails. */
  function ParseLines(lines: seq<string>, nhead: int, parse: string -> Result<HeaderEntry>): Result<seq<HeaderEntry>>
    decreases if nhead > 0 then nhead else 0
  {
    if nhead <= 0 then Ok([])
    else if lines == [] then Err(StopIteration)
    else
      match parse(lines[0])
      case Err(e) => Err(e)
      case Ok(entry) =>
        match ParseLines(lines[1..], nhead - 1, parse)
        case Err(e) => Err(e)
        case Ok(rest) => Ok([entry] + rest)
  }

  function ParseHeaderLines(lines: seq<string>, nhead: int, delimiter: string,
                            toFloat: string -> Option<real>): Result<seq<HeaderEntry>> {
    ParseLines(lines, nhead, HeaderLineParser(delimiter, toFloat))
  }

  /** The header loop succeeds exactly when the file has nhead lines and each
      of them parses; it then yields one entry per line, in order. A file
      that is short but whose lines all parse ends in StopIteration. */
  lemma {:induction false} ParseLinesOutcome(lines: seq<string>, nhead: int, parse: string -> Result<HeaderEntry>)
    ensures var r := ParseLines(lines, nhead, parse);
      && (r.Ok? <==> nhead <= |lines| && forall i :: 0 <= i < nhead ==> parse(lines[i]).Ok?)
      && (r.Ok? ==> |r.value| == (if nhead > 0 then nhead else 0) &&
                    forall i :: 0 <= i < |r.value| ==> parse(lines[i]) == Ok(r.value[i]))
      && (nhead > |lines| && (forall i :: 0 <= i < |lines| ==> parse(lines[i]).Ok?)
          ==> r == Err(StopIteration))
    decreases if nhead > 0 then nhead else 0
  {
    if nhead > 0 && lines != [] {
      ParseLinesOutcome(lines[1..], nhead - 1, parse);
      assert forall i :: 1 <= i < |lines| ==> lines[i] == lines[1..][i - 1];
    }
  }

  /** The first failing line decides the error. */
  lemma ParseLinesFirstError(lines: seq<string>, nhead: int, parse: string -> Result<HeaderEntry>, j: nat)
    requires j < nhead && j < |lines| && parse(lines[j]).Err?
    requires forall i :: 0 <= i < j ==> parse(lines[i]).Ok?
    ensures ParseLines(lines, nhead, parse) == Err(parse(lines[j]).error)
    decreases j
  {
    if j > 0 {
      assert forall i :: 0 <= i < j - 1 ==> lines[1..][i] == lines[i + 1];
      ParseLinesFirstError(lines[1..], nhead - 1, parse, j - 1);
    }
  }

  /** The header storage after applying the entries in order: a later line
      with the same key overwrites an earlier one. */
  function EntriesStorage(entries: seq<HeaderEntry>): map<string, HeaderValue> {
    if entries == [] then map[]
    else
      var last := entries[|entries| - 1];
      EntriesStorage(entries[..|entries| - 1])[last.key := last.value]
  }

  /** The insertion order of the keys after applying the entries in order. */
  function EntriesOrder(entries: seq<HeaderEntry>): seq<string> {
    if entries == [] then []
    else
      var last := entries[|entries| - 1];
      var prefix := entries[..|entries| - 1];
      if last.key in EntriesStorage(prefix) then EntriesOrder(prefix)
      else EntriesOrder(prefix) + [last.key]
  }

  /** A key is stored exactly when some entry carries it. */
  lemma {:induction false} KeyStored(entries: seq<HeaderEntry>, k: string)
    ensures k in EntriesStorage(entries) <==> exists i :: 0 <= i < |entries| && entries[i].key == k
  {
    if entries != [] {
      var n := |entries| - 1;
      var prefix, last := entries[..n], entries[n];
      assert entries == prefix + [last];
      EntriesStep(prefix, last);
      hide EntriesStorage, EntriesOrder;
      KeyStored(prefix, k);
      if last.key != k && exists i :: 0 <= i < |entries| && entries[i].key == k {
        var i :| 0 <= i < |entries| && entries[i].key == k;
        assert prefix[i] == entries[i];
      }
      if exists i :: 0 <= i < |prefix| && prefix[i].key == k {
        var i :| 0 <= i < |prefix| && prefix[i].key == k;
        assert entries[i] == prefix[i];
      }
    }
  }

  /** A stored key holds the value of an entry with that key that no later entry overrides. */
  lemma {:induction false} LastWriter(entries: seq<HeaderEntry>, k: string)
    requires k in EntriesStorage(entries)
    ensures exists i :: 0 <= i < |entries| && entries[i].key == k && EntriesStorage(entries)[k] == entries[i].value
                        && forall j :: i < j < |entries| ==> entries[j].key != k
  {
    var n := |entries| - 1;
    if entries == [] {
      assert false;
    } else {
      var prefix, last := entries[..n], entries[n];
      assert entries == prefix + [last];
      EntriesStep(prefix, last);
      hide EntriesStorage, EntriesOrder;
      if last.key == k {
        assert EntriesStorage(entries)[k] == entries[n].value;
      } else {
        LastWriter(prefix, k);
        var i :| 0 <= i < |prefix| && prefix[i].key == k && EntriesStorage(prefix)[k] == prefix[i].value
                 && forall j :: i < j < |prefix| ==> prefix[j].key != k;
        assert entries[i] == prefix[i];
        assert forall j :: i < j < |entries| ==> entries[j].key != k by {
          assert forall j :: i < j < n ==> entries[j] == prefix[j];
        }
      }
    }
  }

  /** Each stored key holds the value of the last entry with that key. */
  lemma LastEntryWins(entries: seq<HeaderEntry>, k: string)
    ensures k in EntriesStorage(entries) <==> exists i :: 0 <= i < |entries| && entries[i].key == k
    ensures k in EntriesStorage(entries) ==>
      exists i :: 0 <= i < |entries| && entries[i].key == k && EntriesStorage(entries)[k] == entries[i].value
                  && forall j :: i < j < |entries| ==> entries[j].key != k
  {
    KeyStored(entries, k);
    if k in EntriesStorage(entries) {
      LastWriter(entries, k);
    }
  }

  function Prepend(done: seq<HeaderEntry>, r: Result<seq<HeaderEntry>>): Result<seq<HeaderEntry>> {
    match r
    case Err(e) => Err(e)
    case Ok(rest) => Ok(done + rest)
  }

  lemma PrependAppend(done: seq<HeaderEntry>, entry: HeaderEntry, r: Result<seq<HeaderEntry>>)
    ensures Prepend(done, Prepend([entry], r)) == Prepend(done + [entry], r)
  {
    match r {
      case Err(_) =>
      case Ok(rest) => assert done + ([entry] + rest) == (done + [entry]) + rest;
    }
  }

  lemma ParseLinesStep(lines: seq<string>, nhead: int, parse: string -> Result<HeaderEntry>)
    requires nhead > 0 && lines != []
    ensures ParseLines(lines, nhead, parse) ==
            match parse(lines[0])
            case Err(e) => Err(e)
            case Ok(entry) => Prepend([entry], ParseLines(lines[1..], nhead - 1, parse))
  {
  }

  lemma ParseLinesDone(lines: seq<string>, nhead: int, parse: string -> Result<HeaderEntry>)
    requires nhead <= 0
    ensures ParseLines(lines, nhead, parse) == Ok([])
  {
  }

  lemma EntriesEmpty()
    ensures EntriesStorage([]) == map[] && EntriesOrder([]) == []
  {
  }

  lemma ParseLinesShort(lines: seq<string>, nhead: int, parse: string -> Result<HeaderEntry>)
    requires nhead > 0 && lines == []
    ensures ParseLines(lines, nhead, parse) == Err(StopIteration)
  {
  }

  lemma EntriesStep(done: seq<HeaderEntry>, entry: HeaderEntry)
    ensures EntriesStorage(done + [entry]) == EntriesStorage(done)[entry.key := entry.value]
    ensures EntriesOrder(done + [entry]) ==
            if entry.key in EntriesStorage(done) then EntriesOrder(done) else EntriesOrder(done) + [entry.key]
  {
    assert (done + [entry])[..|done|] == done;
  }

  /** The header loop of read_spectrum for a line body parse: a fresh header
      that holds the entries of the first nhead lines, applied in order. */
  method ReadEntries(lines: seq<string>, nhead: int, parse: string -> Result<HeaderEntry>) returns (r: Result<Header>)
    ensures r.Err? <==> ParseLines(lines, nhead, parse).Err?
    ensures r.Err? ==> r.error == ParseLines(lines, nhead, parse).error
    ensures r.Ok? ==>
      var entries := ParseLines(lines, nhead, parse).value;
      fresh(r.value) && r.value.Valid() &&
      r.value.storage == EntriesStorage(entries) && r.value.order == EntriesOrder(entries)
  {
    EntriesEmpty();
    hide ParseLines, EntriesStorage, EntriesOrder;
    var header := new Header();
    var done: seq<HeaderEntry> := [];
    var i := 0;
    assert lines[0..] == lines;
    match ParseLines(lines, nhead, parse) {
      case Err(_) =>
      case Ok(all) => assert done + all == all;
    }
    while i < nhead
      invariant 0 <= i && (nhead > 0 ==> i <= nhead) && (nhead <= 0 ==> i == 0)
      invariant i <= |lines| && |done| == i
      invariant fresh(header) && header.Valid()
      invariant header.storage == EntriesStorage(done) && header.order == EntriesOrder(done)
      invariant ParseLines(lines, nhead, parse) == Prepend(done, ParseLines(lines[i..], nhead - i, parse))
    {
      if i >= |lines| {
        ParseLinesShort(lines[i..], nhead - i, parse);
        return Err(StopIteration);
      }
      ParseLinesStep(lines[i..], nhead - i, parse);
      assert lines[i..][0] == lines[i] && lines[i..][1..] == lines[i + 1..];
      var parsed := parse(lines[i]);
      if parsed.Err? {
        return Err(parsed.error);
      }
      var entry := parsed.value;
      header.Set(entry.key, entry.value);
      EntriesStep(done, entry);
      PrependAppend(done, entry, ParseLines(lines[i + 1..], nhead - i - 1, parse));
      done := done + [entry];
      i := i + 1;
    }
    ParseLinesDone(lines[i..], nhead - i, parse);
    assert done + [] == done;
    return Ok(header);
  }

  /** The header loop of read_spectrum (the file reading itself is not
      modelled: lines are the lines it would read, in order). */
  method ReadHeader(lines: seq<string>, nhead: int, delimiter: string,
                    toFloat: string -> Option<real>) returns (r: Result<Header>)
    ensures r.Err? <==> ParseHeaderLines(lines, nhead, delimiter, toFloat).Err?
    ensures r.Err? ==> r.error == ParseHeaderLines(lines, nhead, delimiter, toFloat).error
    ensures r.Ok? ==>
      var entries := ParseHeaderLines(lines, nhead, delimiter, toFloat).value;
      fresh(r.value) && r.value.Valid() &&
      r.value.storage == EntriesStorage(entries) && r.value.order == EntriesOrder(entries)
  {
    r := ReadEntries(lines, nhead, HeaderLineParser(delimiter, toFloat));
  }

  // ---------------------------------------------------------------------------
  // Averaging

  /** s.wavelengths == spectra[0].wavelengths for the spectrum at index j. */
  function CompareGrid(spectra: seq<NIRSpectrum>, j: nat): Result<bool>
    requires j < |spectra|
  {
    Equal(spectra[j].wavelength, spectra[0].wavelength)
  }

  /** j is the first index from i on whose grid does not compare equal to the first spectrum's. */
  predicate FirstMismatch(spectra: seq<NIRSpectrum>, i: nat, j: nat)
    requires i <= j < |spectra|
  {
    CompareGrid(spectra, j) != Ok(true) &&
    forall k :: i <= k < j ==> CompareGrid(spectra, k) == Ok(true)
  }

  /** The short-circuiting loop `all(s.wavelengths == spectra[0].wavelengths
      for s in spectra)` from index i on, failing the way the callers fail:
      DimensionError at the first grid that is not close, or the broadcasting
      ValueError of a comparison reached before any such grid. */
  function GridCheckFrom(spectra: seq<NIRSpectrum>, i: nat): (o: Outcome)
    requires i <= |spectra|
    ensures o.Pass? <==> forall j :: i <= j < |spectra| ==> CompareGrid(spectra, j) == Ok(true)
    ensures o.Fail? ==> exists j :: i <= j < |spectra| && FirstMismatch(spectra, i, j) &&
                         (if CompareGrid(spectra, j).Err? then o.error == CompareGrid(spectra, j).error
                          else o.error == DimensionError)
    decreases |spectra| - i
  {
    if i == |spectra| then Pass
    else match CompareGrid(spectra, i)
      case Err(e) =>
        assert FirstMismatch(spectra, i, i);
        Fail(e)
      case Ok(same) =>
        if !same then
          assert FirstMismatch(spectra, i, i);
          Fail(DimensionError)
        else
          var o := GridCheckFrom(spectra, i + 1);
          assert o.Fail? ==> forall j :: i + 1 <= j < |spectra| && FirstMismatch(spectra, i + 1, j) ==> FirstMismatch(spectra, i, j);
          o
  }

  /** all(s.wavelengths == spectra[0].wavelengths for s in spectra), with its failure. */
  function GridCheck(spectra: seq<NIRSpectrum>): (o: Outcome)
    ensures o.Pass? <==> forall j :: 0 <= j < |spectra| ==> CompareGrid(spectra, j) == Ok(true)
    ensures o.Fail? ==> exists j :: 0 <= j < |spectra| && FirstMismatch(spectra, 0, j) &&
                         (if CompareGrid(spectra, j).Err? then o.error == CompareGrid(spectra, j).error
                          else o.error == DimensionError)
  {
    GridCheckFrom(spectra, 0)
  }

  /** When every grid has the length of the first, no comparison raises and the
      check fails with DimensionError exactly when some grid is not close to the first. */
  lemma GridCheckSameLengths(spectra: seq<NIRSpectrum>)
    requires forall j :: 0 <= j < |spectra| ==> |spectra[j].wavelength.data| == |spectra[0].wavelength.data|
    ensures GridCheck(spectra).Fail? ==> GridCheck(spectra).error == DimensionError
    ensures GridCheck(spectra).Fail? <==>
            exists j, k :: 0 <= j < |spectra| && 0 <= k < |spectra[j].wavelength.data| &&
                           !IsClose(spectra[j].wavelength.data[k], spectra[0].wavelength.data[k])
  {
    if GridCheck(spectra).Fail? {
      var j :| 0 <= j < |spectra| && FirstMismatch(spectra, 0, j);
      var a, b := spectra[j].wavelength.data, spectra[0].wavelength.data;
      assert CompareGrid(spectra, j) == Ok(forall k :: 0 <= k < |a| ==> IsClose(a[k], b[k]));
      var k :| 0 <= k < |a| && !IsClose(a[k], b[k]);
    } else {
      forall j, k | 0 <= j < |spectra| && 0 <= k < |spectra[j].wavelength.data|
        ensures IsClose(spectra[j].wavelength.data[k], spectra[0].wavelength.data[k])
      {
        assert CompareGrid(spectra, j) == Ok(true);
      }
    }
  }

  /** np.array([s.absorbance.data for s in spectra]): a rectangular matrix,
      or ValueError for arrays of different lengths. */
  function AbsorbanceMatrix(spectra: seq<NIRSpectrum>): (r: Result<seq<seq<real>>>)
    ensures r.Ok? <==> forall i :: 0 <= i < |spectra| ==>
                         |spectra[i].absorbance.data| == |spectra[0].absorbance.data|
    ensures r.Err? ==> r.error == ValueError
    ensures r.Ok? ==> |r.value| == |spectra| &&
                      forall i :: 0 <= i < |spectra| ==> r.value[i] == spectra[i].absorbance.data
  {
    if forall i | 0 <= i < |spectra| :: |spectra[i].absorbance.data| == |spectra[0].absorbance.data|
    then Ok(seq(|spectra|, i requires 0 <= i < |spectra| => spectra[i].absorbance.data))
    else Err(ValueError)
  }

  /** average_spectra: the elementwise mean absorbance on the first spectrum's
      wavelength grid, without header or signals. */
  function AverageSpectra(spectra: seq<NIRSpectrum>): (r: Result<NIRSpectrum>)
    ensures GridCheck(spectra).Fail? ==> r == Err(GridCheck(spectra).error)
    ensures GridCheck(spectra).Pass? && spectra == [] ==> r == Err(IndexError)
    ensures GridCheck(spectra).Pass? && spectra != [] && AbsorbanceMatrix(spectra).Err? ==> r == Err(ValueError)
    ensures r.Ok? <==> GridCheck(spectra).Pass? && spectra != [] && AbsorbanceMatrix(spectra).Ok?
    ensures r.Ok? ==>
      && r.value.wavelength == spectra[0].wavelength
      && r.value.header == null && r.value.referenceSignal.None? && r.value.sampleSignal.None?
      && |r.value.absorbance.data| == |spectra[0].absorbance.data|
      && forall j :: 0 <= j < |r.value.absorbance.data| ==>
           r.value.absorbance.data[j] == Mean(seq(|spectra|, i requires 0 <= i < |spectra| => spectra[i].absorbance.data[j]))
  {
    match GridCheck(spectra)
    case Fail(e) => Err(e)
    case Pass =>
      if spectra == [] then Err(IndexError)
      else
        var wavelength := Copy(spectra[0].wavelength);
        match AbsorbanceMatrix(spectra)
        case Err(e) => Err(e)
        case Ok(m) =>
          var w := |spectra[0].absorbance.data|;
          var mean := ColumnMeans(m, w);
          assert forall j :: 0 <= j < w ==>
            Column(m, j) == seq(|spectra|, i requires 0 <= i < |spectra| => spectra[i].absorbance.data[j]);
          NewSpectrum(wavelength, DataContainer(AbsorbanceKind, mean), None, None, null)
  }

  /** Averaging copies of one absorbance array gives that array back; in
      particular averaging a single spectrum reproduces its absorbance. */
  lemma AverageOfIdenticalAbsorbance(spectra: seq<NIRSpectrum>)
    requires spectra != []
    requires forall i :: 0 <= i < |spectra| ==> spectra[i].absorbance == spectra[0].absorbance
    requires GridCheck(spectra).Pass?
    ensures AverageSpectra(spectra) == Ok(Spectrum(spectra[0].wavelength, spectra[0].absorbance, None, None, null))
  {
    var a := spectra[0].absorbance.data;
    var r := AverageSpectra(spectra);
    assert r.Ok?;
    forall j | 0 <= j < |a| ensures r.value.absorbance.data[j] == a[j] {
      var col := seq(|spectra|, i requires 0 <= i < |spectra| => spectra[i].absorbance.data[j]);
      SumConstant(col, a[j]);
    }
    assert r.value.absorbance.data == a;
  }

  lemma AverageSingle(s: NIRSpectrum)
    ensures AverageSpectra([s]) == Ok(Spectrum(s.wavelength, s.absorbance, None, None, null))
  {
    AllCloseReflexive(s.wavelength.data);
    assert GridCheck([s]).Pass?;
    AverageOfIdenticalAbsorbance([s]);
  }
}
