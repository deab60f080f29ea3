/** The small Option type the lookups below return. */
module Wrappers {
  datatype Option<+T> = None | Some(value: T)
}

/** The records of the shop (shop/models.py) with the one piece of logic they carry:
    turning a product's comma-separated `tags` field into a list of tokens. Prices are
    exact integer cents, because the source stores them as two-place decimals. */
module Models {
  import opened Text

  type ProductId = int
  type UserId = int

  /** A catalog product: its primary key, its price in cents and its raw `tags` text.
      The name, description and category are presentation only. */
  datatype Product = Product(id: ProductId, price: int, tags: string)

  /** One line of a user's cart. Every user has at most one cart, so the line names
      the cart by its owner. */
  datatype CartItem = CartItem(id: nat, user: UserId, product: ProductId, quantity: nat)

  /** An order header and one of its lines; `price` is the unit price captured at checkout. */
  datatype Order = Order(id: nat, user: UserId, total: int)
  datatype OrderItem = OrderItem(order: nat, product: ProductId, quantity: nat, price: int)

  /** The two feedback values `UserFeedback.feedback` may hold. */
  const LIKE: int := 1
  const DISLIKE: int := -1

  predicate IsFeedbackValue(v: int) {
    v == LIKE || v == DISLIKE
  }

  /** The quantity a newly created cart line gets. */
  const DEFAULT_QUANTITY: nat := 1

  /** `CartItem.get_total_price`: unit price times quantity, exact in cents. */
  function LineTotal(price: int, quantity: nat): int {
    price * quantity
  }

  /** A token `get_tags_list` may produce: non-empty, trimmed, lower-case, comma-free. */
  predicate IsToken(t: string) {
    t != [] && IsStripped(t) && IsLower(t) && ',' !in t
  }

  /** What one field contributes to `get_tags_list`: its stripped, lower-cased form,
      or nothing when it is blank. */
  function FieldToken(field: string): (r: seq<string>)
    ensures |r| <= 1
    ensures r == [] <==> AllSpace(field)
  {
    var t := Strip(field);
    if t != [] then [Lower(t)] else []
  }

  /** The token of a field does not depend on the field's letter case. */
  lemma {:induction false} FieldTokenLower(field: string)
    ensures FieldToken(Lower(field)) == FieldToken(field)
  {
    var t := Strip(field);
    StripLower(field);
    assert |Lower(t)| == |t|;
    if t != [] {
      assert IsLower(Lower(t));
      assert Lower(Lower(t)) == Lower(t);
    }
  }

  /** A comma-free field contributes a well-formed token, if any. */
  lemma FieldTokenWellFormed(field: string)
    requires ',' !in field
    ensures AllTokens(FieldToken(field))
  {
    var t := Strip(field);
    if t != [] {
      StripKeepsOut(field, ',');
      LowerToken(t);
    }
  }

  /** Lower-casing a trimmed, comma-free, non-empty text gives a token. */
  lemma LowerToken(t: string)
    requires t != [] && IsStripped(t) && ',' !in t
    ensures IsToken(Lower(t))
  {
    var l := Lower(t);
    assert !IsSpace(l[0]) && !IsSpace(l[|l| - 1]);
    assert forall i :: 0 <= i < |l| ==> l[i] != ',';
  }

  /** `f` applied to every element of `s`, the results concatenated in order. */
  function FlatMap<A, B>(f: A -> seq<B>, s: seq<A>): seq<B> {
    if |s| == 0 then [] else f(s[0]) + FlatMap(f, s[1..])
  }

  lemma {:induction false} FlatMapAppend<A, B>(f: A -> seq<B>, s: seq<A>, t: seq<A>)
    ensures FlatMap(f, s + t) == FlatMap(f, s) + FlatMap(f, t)
  {
    if |s| == 0 {
      assert s + t == t;
    } else {
      assert (s + t)[1..] == s[1..] + t;
      FlatMapAppend(f, s[1..], t);
    }
  }

  lemma {:induction false} FlatMapEmpty<A, B>(f: A -> seq<B>, s: seq<A>)
    ensures FlatMap(f, s) == [] <==> forall i :: 0 <= i < |s| ==> f(s[i]) == []
  {
    if |s| != 0 {
      FlatMapEmpty(f, s[1..]);
      assert forall i :: 1 <= i < |s| ==> s[i] == s[1..][i - 1];
    }
  }

  /** `FlatMap` only looks at what `f` gives for each element. */
  lemma {:induction false} FlatMapPointwise<A, B>(f: A -> seq<B>, s: seq<A>, t: seq<A>)
    requires |s| == |t|
    requires forall i :: 0 <= i < |s| ==> f(s[i]) == f(t[i])
    ensures FlatMap(f, s) == FlatMap(f, t)
  {
    if |s| != 0 {
      assert forall i :: 0 <= i < |s| - 1 ==> s[1..][i] == s[i + 1] && t[1..][i] == t[i + 1];
      FlatMapPointwise(f, s[1..], t[1..]);
    }
  }

  /** The list comprehension of `get_tags_list` over already-split fields. */
  function Tokens(fields: seq<string>): seq<string> {
    FlatMap(FieldToken, fields)
  }

  /** Every element of `ts` is a token. */
  predicate AllTokens(ts: seq<string>) {
    forall i :: 0 <= i < |ts| ==> IsToken(ts[i])
  }

  lemma AllTokensConcat(a: seq<string>, b: seq<string>)
    requires AllTokens(a) && AllTokens(b)
    ensures AllTokens(a + b)
  {
    forall i | 0 <= i < |a + b| ensures IsToken((a + b)[i]) {
      if i < |a| { assert (a + b)[i] == a[i]; } else { assert (a + b)[i] == b[i - |a|]; }
    }
  }

  /** Comma-free fields contribute only well-formed tokens, at most one each. */
  lemma {:induction false} TokensWellFormed(fields: seq<string>)
    requires forall i :: 0 <= i < |fields| ==> ',' !in fields[i]
    ensures |Tokens(fields)| <= |fields|
    ensures AllTokens(Tokens(fields))
  {
    if |fields| != 0 {
      var rest := fields[1..];
      assert forall i :: 0 <= i < |rest| ==> rest[i] == fields[i + 1];
      TokensWellFormed(rest);
      FieldTokenWellFormed(fields[0]);
      AllTokensConcat(FieldToken(fields[0]), Tokens(rest));
    }
  }

  /** `Product.get_tags_list`: split the raw text at commas, strip and lower-case every
      field, drop the fields that are blank. */
  function TagsList(raw: string): seq<string> {
    Tokens(Split(raw, ','))
  }

  /** Every tag is non-empty, trimmed, lower-case and comma-free, and there is at most
      one tag more than there are commas. */
  lemma TagsListWellFormed(raw: string)
    ensures AllTokens(TagsList(raw))
    ensures |TagsList(raw)| <= multiset(raw)[','] + 1
  {
    SplitFields(raw, ',');
    TokensWellFormed(Split(raw, ','));
  }

  lemma TokensAppend(f: seq<string>, g: seq<string>)
    ensures Tokens(f + g) == Tokens(f) + Tokens(g)
  {
    FlatMapAppend(FieldToken, f, g);
  }

  /** Tokens come in the order of their fields and duplicates are kept: the tags of
      `a,b` are the tags of `a` followed by the tags of `b`. */
  lemma TagsListAppend(a: string, b: string)
    ensures TagsList(a + [','] + b) == TagsList(a) + TagsList(b)
  {
    SplitAppend(a, b, ',');
    TokensAppend(Split(a, ','), Split(b, ','));
  }

  /** `get_tags_list` ignores the letter case of the raw tags. */
  lemma {:induction false} TagsListLower(raw: string)
    ensures TagsList(Lower(raw)) == TagsList(raw)
  {
    var fields := Split(raw, ',');
    var lf := MapLower(fields);
    SplitLower(raw);
    forall i | 0 <= i < |fields| ensures FieldToken(fields[i]) == FieldToken(lf[i]) {
      FieldTokenLower(fields[i]);
    }
    FlatMapPointwise(FieldToken, fields, lf);
  }

  /** Raw tags that agree up to ASCII letter case give the same tag list. */
  lemma {:induction false} TagsListCaseInsensitive(a: string, b: string)
    requires Lower(a) == Lower(b)
    ensures TagsList(a) == TagsList(b)
  {
    TagsListLower(a);
    TagsListLower(b);
  }

  /** A single field yields its stripped, lower-cased form, or nothing when it is blank. */
  lemma TagsListField(field: string)
    requires ',' !in field
    ensures TagsList(field) == if AllSpace(field) then [] else [Lower(Strip(field))]
  {
    SplitField(field, ',');
    var fields := Split(field, ',');
    assert fields[0] == field && fields[1..] == [];
    assert Tokens(fields) == FieldToken(field) + FlatMap(FieldToken, fields[1..]);
  }

  lemma TokensEmpty(fields: seq<string>)
    ensures Tokens(fields) == [] <==> forall i :: 0 <= i < |fields| ==> AllSpace(fields[i])
  {
    FlatMapEmpty(FieldToken, fields);
    assert forall i :: 0 <= i < |fields| ==> (FieldToken(fields[i]) == [] <==> AllSpace(fields[i]));
  }

  /** A text made only of commas and whitespace (the empty text included) has no tags,
      and it is the only kind of text without tags. */
  lemma {:induction false} TagsListEmpty(raw: string)
    ensures TagsList(raw) == [] <==> SepOrSpace(raw, ',')
  {
    var fields := Split(raw, ',');
    TokensEmpty(fields);
    SplitFields(raw, ',');
    JoinSplit(raw, ',');
    JoinAllSpace(fields, ',');
  }

  /** Joined fields are all blank exactly when the joined text is commas and blanks. */
  lemma {:induction false} JoinAllSpace(fields: seq<string>, sep: char)
    requires forall i :: 0 <= i < |fields| ==> sep !in fields[i]
    ensures (forall i :: 0 <= i < |fields| ==> AllSpace(fields[i])) <==> SepOrSpace(Join(fields, sep), sep)
  {
    if |fields| == 1 {
      assert Join(fields, sep) == fields[0];
      SepOrSpaceNoSep(fields[0], sep);
    } else if |fields| > 1 {
      var rest := fields[1..];
      assert forall i :: 1 <= i < |fields| ==> fields[i] == rest[i - 1];
      JoinAllSpace(rest, sep);
      assert Join(fields, sep) == fields[0] + [sep] + Join(rest, sep);
      SepOrSpaceConcat(fields[0], Join(rest, sep), sep);
      SepOrSpaceNoSep(fields[0], sep);
    }
  }

  /** A text around one separator is separators and blanks exactly when both sides are. */
  lemma SepOrSpaceConcat(a: string, b: string, sep: char)
    ensures SepOrSpace(a + [sep] + b, sep) <==> SepOrSpace(a, sep) && SepOrSpace(b, sep)
  {
    var s := a + [sep] + b;
    assert forall i :: 0 <= i < |a| ==> s[i] == a[i];
    assert forall i :: 0 <= i < |b| ==> s[|a| + 1 + i] == b[i];
    if SepOrSpace(a, sep) && SepOrSpace(b, sep) {
      forall i | 0 <= i < |s| ensures s[i] == sep || IsSpace(s[i]) {
        if i > |a| { assert s[i] == b[i - |a| - 1]; }
      }
    }
  }

  /** For a text without the separator, "separators and blanks" means "blanks". */
  lemma SepOrSpaceNoSep(a: string, sep: char)
    requires sep !in a
    ensures SepOrSpace(a, sep) <==> AllSpace(a)
  {
  }

  /** Every character of `s` is the separator or whitespace. */
  predicate SepOrSpace(s: string, sep: char) {
    forall i :: 0 <= i < |s| ==> s[i] == sep || IsSpace(s[i])
  }
}
