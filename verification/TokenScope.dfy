/** Token ids as normalized decimal text, and the interval algebra of a collection's token scope. */
module TokenScope {
  import opened Common
  import D = Decimal

  const TOKEN_ID_MAX: nat := 0xFFFF_FFFF_FFFF_FFFF_FFFF_FFFF_FFFF_FFFF_FFFF_FFFF_FFFF_FFFF_FFFF_FFFF_FFFF_FFFF

  function DecimalLength(): nat { |D.ToDec(TOKEN_ID_MAX)| }

  /** None in: no string at all. None out: not a token id. */
  function NormalizeTokenId(value: Option<string>): (r: Option<string>)
    ensures r.Some? ==> D.Digits(r.value)
  {
    if value.None? then None
    else
      var text := D.Trim(value.value);
      if text == "" || !D.Digits(text) || |text| > DecimalLength() || D.Val(text) > TOKEN_ID_MAX then None
      else Some(D.ToDec(D.Val(text)))
  }

  /** The number an accepted text stands for. */
  function IdValue(text: string): nat
    requires NormalizeTokenId(Some(text)).Some?
  {
    D.Val(D.Trim(text))
  }

  lemma ShorterThanMax(n: nat)
    requires n <= TOKEN_ID_MAX
    ensures |D.ToDec(n)| <= DecimalLength()
  {
    hide D.ToDec, D.Val;
    D.ValToDec(n);
    D.ValToDec(TOKEN_ID_MAX);
    assert D.Canonical(D.ToDec(n)) by { CanonicalText(n); }
    if |D.ToDec(n)| > DecimalLength() { D.LongerIsGreater(D.ToDec(TOKEN_ID_MAX), D.ToDec(n)); }
  }

  lemma CanonicalText(n: nat)
    ensures D.Canonical(D.ToDec(n)) && D.Val(D.ToDec(n)) == n
  {
    D.ValToDec(n);
    hide D.Val;
    if n == 0 { assert D.ToDec(0) == "0"; }
  }

  /** The text of every number in range is accepted and already normal. */
  lemma NormalTexts(n: nat)
    requires n <= TOKEN_ID_MAX
    ensures NormalizeTokenId(Some(D.ToDec(n))) == Some(D.ToDec(n)) && IdValue(D.ToDec(n)) == n
  {
    hide D.ToDec, D.Val, D.Trim, DecimalLength;
    D.TrimDigits(D.ToDec(n));
    D.ValToDec(n);
    ShorterThanMax(n);
  }

  lemma AcceptedValue(text: string)
    requires NormalizeTokenId(Some(text)).Some?
    ensures IdValue(text) <= TOKEN_ID_MAX && NormalizeTokenId(Some(text)) == Some(D.ToDec(IdValue(text)))
    ensures D.Digits(D.ToDec(IdValue(text))) && D.Val(D.ToDec(IdValue(text))) == IdValue(text)
  {
    hide D.ToDec, D.Val, D.Trim, DecimalLength;
    D.ValToDec(IdValue(text));
  }

  /** Normalizing twice is normalizing once. */
  lemma NormalizeIdempotent(text: string)
    requires NormalizeTokenId(Some(text)).Some?
    ensures NormalizeTokenId(NormalizeTokenId(Some(text))) == NormalizeTokenId(Some(text))
  {
    hide NormalizeTokenId, IdValue;
    AcceptedValue(text);
    NormalTexts(IdValue(text));
  }

  /** Two accepted texts normalize alike exactly when they denote the same number. */
  lemma NormalizeIdentifies(a: string, b: string)
    requires NormalizeTokenId(Some(a)).Some? && NormalizeTokenId(Some(b)).Some?
    ensures NormalizeTokenId(Some(a)) == NormalizeTokenId(Some(b)) <==> IdValue(a) == IdValue(b)
  {
    hide NormalizeTokenId, IdValue, D.ToDec, D.Val;
    AcceptedValue(a);
    AcceptedValue(b);
  }

  // ---------------------------------------------------------------- scopes

  datatype Scope = AllTokens | ExplicitIds | Range(start: string, count: int)

  datatype Persisted = Persisted(kind: string, start: Option<string>, supply: Field)

  datatype Interval = Interval(from: string, to: string)

  function TokenRange(start: Option<string>, count: Field): Result<Scope> {
    var id := NormalizeTokenId(start);
    if id.None? || count.Null? then Thrown
    else if !count.Integer? || !SafeInteger(count.n) || count.n <= 0 then Thrown
    else if D.Val(id.value) + (count.n - 1) > TOKEN_ID_MAX then Thrown
    else Ok(Range(id.value, count.n))
  }

  function FromPersistence(p: Persisted): Result<Scope> {
    if p.kind == "contract_all_tokens" then Ok(AllTokens)
    else if p.kind == "explicit_token_ids" then Ok(ExplicitIds)
    else if p.kind == "token_range" then TokenRange(p.start, p.supply)
    else Thrown
  }

  function ToPersistence(s: Scope): Persisted {
    match s
    case AllTokens => Persisted("contract_all_tokens", None, Null)
    case ExplicitIds => Persisted("explicit_token_ids", None, Null)
    case Range(start, count) => Persisted("token_range", Some(start), Integer(count))
  }

  /** What every constructed scope satisfies. */
  predicate ValidScope(s: Scope) {
    s.Range? ==>
      D.Canonical(s.start) && 1 <= s.count <= MAX_SAFE_INTEGER && D.Val(s.start) + s.count - 1 <= TOKEN_ID_MAX
  }

  function ContainsToken(s: Scope, token: string, explicit: string -> bool): bool
    requires ValidScope(s)
  {
    match NormalizeTokenId(Some(token))
    case None => false
    case Some(id) =>
      match s
      case AllTokens => true
      case ExplicitIds => explicit(id)
      case Range(start, count) => D.Val(start) <= D.Val(id) < D.Val(start) + count
  }

  function IntersectRange(s: Scope, from: string, to: string): Option<Interval>
    requires ValidScope(s)
  {
    match (NormalizeTokenId(Some(from)), NormalizeTokenId(Some(to)))
    case (Some(f), Some(t)) =>
      if D.Val(f) > D.Val(t) then None
      else (match s
            case ExplicitIds => None
            case AllTokens => Some(Interval(f, t))
            case Range(start, count) =>
              var first, end := D.Val(start), D.Val(start) + (count - 1);
              var lower := if D.Val(f) > first then D.Val(f) else first;
              var upper := if D.Val(t) < end then D.Val(t) else end;
              if lower > upper then None else Some(Interval(D.ToDec(lower), D.ToDec(upper))))
    case _ => None
  }

  // ---------------------------------------------------------------- persistence

  /** Whatever is read from storage is valid, and every valid scope survives a write and a read. */
  lemma PersistenceRoundTrip(s: Scope)
    ensures ValidScope(s) <==> FromPersistence(ToPersistence(s)) == Ok(s)
  {
    hide NormalizeTokenId, D.ToDec, D.Val;
    if s.Range? {
      if ValidScope(s) {
        D.ToDecVal(s.start);
        NormalTexts(D.Val(s.start));
      } else if FromPersistence(ToPersistence(s)) == Ok(s) {
        ConstructedValid(ToPersistence(s));
      }
    }
  }

  lemma ConstructedValid(p: Persisted)
    requires FromPersistence(p).Ok?
    ensures ValidScope(FromPersistence(p).value)
  {
    hide NormalizeTokenId, D.ToDec, D.Val;
    NothingAccepted();
    if p.kind == "token_range" {
      AcceptedValue(p.start.value);
      CanonicalText(IdValue(p.start.value));
    }
  }

  // ---------------------------------------------------------------- the interval algebra

  /** Membership of a token id in an intersection result. */
  predicate InInterval(r: Option<Interval>, n: nat) {
    r.Some? && D.Digits(r.value.from) && D.Digits(r.value.to) && D.Val(r.value.from) <= n <= D.Val(r.value.to)
  }

  /** The requested interval, by value; a malformed bound requests nothing. */
  predicate Requested(from: string, to: string, n: nat) {
    && NormalizeTokenId(Some(from)).Some? && NormalizeTokenId(Some(to)).Some?
    && IdValue(from) <= n <= IdValue(to)
  }

  lemma ContainsByValue(s: Scope, token: string, explicit: string -> bool)
    requires ValidScope(s) && NormalizeTokenId(Some(token)).Some? && !s.ExplicitIds?
    ensures ContainsToken(s, token, explicit) <==>
            (s.Range? ==> D.Val(s.start) <= IdValue(token) < D.Val(s.start) + s.count)
  {
    hide NormalizeTokenId, D.ToDec, D.Val, IdValue;
    AcceptedValue(token);
  }

  /** For the continuous kinds, the intersection holds exactly the requested ids the scope contains,
      and is empty exactly when there is none. */
  lemma IntersectExact(s: Scope, from: string, to: string, token: string, explicit: string -> bool)
    requires ValidScope(s) && !s.ExplicitIds? && NormalizeTokenId(Some(token)).Some?
    ensures InInterval(IntersectRange(s, from, to), IdValue(token)) <==>
            Requested(from, to, IdValue(token)) && ContainsToken(s, token, explicit)
  {
    hide NormalizeTokenId, D.ToDec, D.Val, IdValue, ContainsToken;
    ContainsByValue(s, token, explicit);
    if NormalizeTokenId(Some(from)).Some? && NormalizeTokenId(Some(to)).Some? {
      AcceptedValue(from);
      AcceptedValue(to);
      IntersectByValue(s, from, to);
    }
  }

  /** The result in numbers: the larger lower bound and the smaller upper bound, when they meet. */
  lemma IntersectByValue(s: Scope, from: string, to: string)
    requires ValidScope(s) && !s.ExplicitIds?
    requires NormalizeTokenId(Some(from)).Some? && NormalizeTokenId(Some(to)).Some?
    ensures var lower := if s.Range? then Max(IdValue(from), D.Val(s.start)) else IdValue(from);
            var upper := if s.Range? then Min(IdValue(to), D.Val(s.start) + s.count - 1) else IdValue(to);
            && 0 <= lower <= TOKEN_ID_MAX && 0 <= upper <= TOKEN_ID_MAX
            && (if IdValue(from) <= IdValue(to) && lower <= upper
                then IntersectRange(s, from, to) == Some(Interval(D.ToDec(lower), D.ToDec(upper)))
                     && D.Digits(D.ToDec(lower)) && D.Val(D.ToDec(lower)) == lower
                     && D.Digits(D.ToDec(upper)) && D.Val(D.ToDec(upper)) == upper
                else IntersectRange(s, from, to) == None)
  {
    hide NormalizeTokenId, D.ToDec, D.Val, IdValue;
    AcceptedValue(from);
    AcceptedValue(to);
    var lower := if s.Range? then Max(IdValue(from), D.Val(s.start)) else IdValue(from);
    var upper := if s.Range? then Min(IdValue(to), D.Val(s.start) + s.count - 1) else IdValue(to);
    D.ValToDec(lower);
    D.ValToDec(upper);
  }

  /** Null is returned exactly when no token id is both requested and contained. */
  lemma IntersectEmpty(s: Scope, from: string, to: string, explicit: string -> bool)
    requires ValidScope(s) && !s.ExplicitIds?
    ensures IntersectRange(s, from, to).None? <==>
            forall t | NormalizeTokenId(Some(t)).Some? ::
              !(Requested(from, to, IdValue(t)) && ContainsToken(s, t, explicit))
  {
    hide *;
    forall t | NormalizeTokenId(Some(t)).Some? && IntersectRange(s, from, to).None?
      ensures !(Requested(from, to, IdValue(t)) && ContainsToken(s, t, explicit))
    {
      IntersectExact(s, from, to, t, explicit);
      NotInNone(IdValue(t));
    }
    if IntersectRange(s, from, to).Some? {
      var t := LowerBound(s, from, to);
      IntersectExact(s, from, to, t, explicit);
    }
  }

  lemma NotInNone(n: nat)
    ensures !InInterval(None, n)
  {
  }

  lemma LowerBound(s: Scope, from: string, to: string) returns (t: string)
    requires ValidScope(s) && IntersectRange(s, from, to).Some?
    ensures NormalizeTokenId(Some(t)).Some? && InInterval(IntersectRange(s, from, to), IdValue(t))
  {
    hide NormalizeTokenId, D.ToDec, D.Val, IdValue;
    IntersectByValue(s, from, to);
    t := IntersectRange(s, from, to).value.from;
    AcceptedValue(from);
    var lower := if s.Range? then Max(IdValue(from), D.Val(s.start)) else IdValue(from);
    NormalTexts(lower);
  }

  // ---------------------------------------------------------------- what is accepted

  /** The longest token id has 78 digits. */
  lemma SeventyEightDigits()
    ensures DecimalLength() == 78
  {
    D.TenTo78();
    hide D.ToDec, D.Pow10;
    D.ShortText(TOKEN_ID_MAX, 78);
    D.LongText(TOKEN_ID_MAX, 77);
  }

  /** A text is accepted with value v exactly when it is one to 78 digits denoting v, at most 2^256 - 1, with any
      white space around them. */
  ghost predicate Written(text: string, v: nat) {
    exists a: string, d: string, b: string ::
      && text == a + d + b && D.Blank(a) && D.Blank(b)
      && D.Digits(d) && 1 <= |d| <= 78 && D.Val(d) == v && v <= TOKEN_ID_MAX
  }

  lemma AcceptedExactly(text: string, v: nat)
    ensures NormalizeTokenId(Some(text)) == Some(D.ToDec(v)) <==> Written(text, v)
  {
    SeventyEightDigits();
    hide D.ToDec, D.Val, D.Trim, D.IsSpace, DecimalLength;
    if NormalizeTokenId(Some(text)) == Some(D.ToDec(v)) {
      var a, b := D.TrimParts(text);
      D.ToDecInjective(v, D.Val(D.Trim(text)));
      assert Written(text, v);
    }
    if Written(text, v) { WrittenAccepted(text, v); }
  }

  lemma WrittenAccepted(text: string, v: nat)
    requires Written(text, v) && DecimalLength() == 78
    ensures NormalizeTokenId(Some(text)) == Some(D.ToDec(v))
  {
    hide D.ToDec, D.Val, D.Trim, DecimalLength;
    var a: string, d: string, b: string :|
      && text == a + d + b && D.Blank(a) && D.Blank(b)
      && D.Digits(d) && 1 <= |d| <= 78 && D.Val(d) == v && v <= TOKEN_ID_MAX;
    assert D.IsDigit(d[0]) && D.IsDigit(d[|d| - 1]);
    D.TrimPadded(a, d, b);
  }

  /** Whatever is stored, a range is read back exactly when its start is such a text, its count is a positive
      safe integer and its last token is no larger than 2^256 - 1; the kind alone decides about the others. */
  lemma FromPersistenceExactly(p: Persisted, v: nat, count: int)
    ensures FromPersistence(p) == Ok(Range(D.ToDec(v), count)) <==>
            && p.kind == "token_range" && p.start.Some? && Written(p.start.value, v)
            && p.supply == Integer(count) && 1 <= count <= 9007199254740991 && v + count - 1 <= TOKEN_ID_MAX
    ensures FromPersistence(p) == Ok(AllTokens) <==> p.kind == "contract_all_tokens"
    ensures FromPersistence(p) == Ok(ExplicitIds) <==> p.kind == "explicit_token_ids"
  {
    hide NormalizeTokenId, D.ToDec, D.Val, Written;
    D.ValToDec(v);
    if p.start.Some? { AcceptedExactly(p.start.value, v); } else { NothingAccepted(); }
  }

  lemma NothingAccepted()
    ensures NormalizeTokenId(None) == None
  {
  }

  /** A scope of explicit ids asks for the normalized text of an accepted id, and contains nothing else. */
  lemma ContainsExplicit(token: string, explicit: string -> bool, v: nat)
    ensures Written(token, v) ==> (ContainsToken(ExplicitIds, token, explicit) <==> explicit(D.ToDec(v)))
    ensures NormalizeTokenId(Some(token)).None? ==> !ContainsToken(ExplicitIds, token, explicit)
  {
    hide NormalizeTokenId, D.ToDec, Written;
    AcceptedExactly(token, v);
  }
}
