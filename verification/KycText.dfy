/** The text clean-up of actions/user.ts: rejection reasons and document references. */
module KycText {
  import opened Options
  import opened Sequences

  /** The characters that String.prototype.trim removes. */
  predicate IsSpace(c: char) {
    || c in [' ', '\t', '\n', '\r', '\U{000B}', '\U{000C}', '\U{00A0}', '\U{1680}']
    || '\U{2000}' <= c <= '\U{200A}'
    || c in ['\U{2028}', '\U{2029}', '\U{202F}', '\U{205F}', '\U{3000}', '\U{FEFF}']
  }

  /** By code point: tab to carriage return, the blanks of Unicode, the two line separators, the byte order mark. */
  lemma SpacesAre(c: char)
    ensures IsSpace(c) <==>
            || 9 <= c as int <= 13 || 8192 <= c as int <= 8202
            || c as int in {32, 160, 5760, 8232, 8233, 8239, 8287, 12288, 65279}
  {
  }

  function TrimStart(s: string): (r: string)
    ensures r == [] || !IsSpace(r[0])
  {
    if s != [] && IsSpace(s[0]) then TrimStart(s[1..]) else s
  }

  function TrimEnd(s: string): (r: string)
    ensures r == [] || !IsSpace(r[|r| - 1])
    ensures r <= s && forall k :: |r| <= k < |s| ==> IsSpace(s[k])
  {
    if s != [] && IsSpace(s[|s| - 1]) then TrimEnd(s[..|s| - 1]) else s
  }

  function Trim(s: string): (r: string)
    ensures r == [] || (!IsSpace(r[0]) && !IsSpace(r[|r| - 1]))
  {
    TrimEnd(TrimStart(s))
  }

  lemma {:induction false} TrimStartCuts(s: string) returns (i: nat)
    ensures i <= |s| && TrimStart(s) == s[i..] && forall k :: 0 <= k < i ==> IsSpace(s[k])
  {
    if s != [] && IsSpace(s[0]) {
      var j := TrimStartCuts(s[1..]);
      i := j + 1;
      assert forall k :: 0 < k < i ==> s[k] == s[1..][k - 1];
    } else {
      i := 0;
    }
  }

  /** Trimming cuts off spaces at both ends and nothing else. */
  lemma TrimCuts(s: string) returns (i: nat, j: nat)
    ensures i <= j <= |s| && Trim(s) == s[i..j]
    ensures forall k :: 0 <= k < i || j <= k < |s| ==> IsSpace(s[k])
  {
    i := TrimStartCuts(s);
    j := i + |Trim(s)|;
    assert forall k :: j <= k < |s| ==> s[k] == s[i..][k - i];
  }

  const MAX_REASON := 500

  const MAX_DOCUMENTS := 10

  /** A kept reason is never empty, never longer than the limit, and starts the trimmed text. */
  function NormalizeReason(reason: Option<string>): (r: Option<string>)
    ensures r.Some? ==> 0 < |r.value| <= 500 && !IsSpace(r.value[0])
    ensures r.Some? ==> reason.Some? && r.value <= Trim(reason.value)
  {
    match reason
    case None => None
    case Some(text) =>
      var trimmed := Trim(text);
      if trimmed != [] then Some(Take(trimmed, MAX_REASON)) else None
  }

  /** A reason is kept exactly when it holds anything but spaces, and is cut only at its limit. */
  lemma ReasonIsKeptIff(text: string)
    ensures NormalizeReason(Some(text)).Some? <==> exists k :: 0 <= k < |text| && !IsSpace(text[k])
    ensures NormalizeReason(Some(text)).Some? ==>
              var kept := NormalizeReason(Some(text)).value; kept == Trim(text) || |kept| == 500
  {
    var i, j := TrimCuts(text);
    if i < j {
      assert !IsSpace(text[i]) by {
        assert Trim(text)[0] == text[i];
      }
    }
  }

  /** A document reference that is stored: trimmed, not empty and accepted by the reference check. */
  predicate Usable(supported: string -> bool, document: string) {
    document != [] && Trim(document) == document && supported(document)
  }

  function Trimmed(documents: seq<string>): seq<string> {
    seq(|documents|, i requires 0 <= i < |documents| => Trim(documents[i]))
  }

  predicate Acceptable(supported: string -> bool, trimmed: string) {
    trimmed != [] && supported(trimmed)
  }

  /** The acceptable ones among the first `n`. */
  function Kept(supported: string -> bool, trimmed: seq<string>, n: nat): (kept: seq<string>)
    requires n <= |trimmed|
    ensures |kept| <= n
  {
    if n == 0 then []
    else
      Kept(supported, trimmed, n - 1) + if Acceptable(supported, trimmed[n - 1]) then [trimmed[n - 1]] else []
  }

  function SanitizeDocuments(supported: string -> bool, documents: seq<string>): seq<string> {
    Take(Kept(supported, Trimmed(documents), |documents|), MAX_DOCUMENTS)
  }

  lemma TrimIsIdempotent(s: string)
    ensures Trim(Trim(s)) == Trim(s)
  {
  }

  lemma {:induction false} AllAreKept(supported: string -> bool, trimmed: seq<string>, n: nat)
    requires n <= |trimmed| && forall k :: 0 <= k < n ==> Acceptable(supported, trimmed[k])
    ensures Kept(supported, trimmed, n) == trimmed[..n]
  {
    if n > 0 {
      AllAreKept(supported, trimmed, n - 1);
    }
  }

  /** The positions of the acceptable ones among the first `n`. */
  ghost function Positions(supported: string -> bool, trimmed: seq<string>, n: nat): seq<int>
    requires n <= |trimmed|
  {
    if n == 0 then []
    else Positions(supported, trimmed, n - 1) + if Acceptable(supported, trimmed[n - 1]) then [n - 1] else []
  }

  /** They stand in order, and they are the acceptable ones. */
  lemma {:induction false} PositionsAre(supported: string -> bool, trimmed: seq<string>, n: nat)
    requires n <= |trimmed|
    ensures var ps := Positions(supported, trimmed, n);
            && (forall a, b :: 0 <= a < b < |ps| ==> ps[a] < ps[b])
            && (forall k :: k in ps <==> 0 <= k < n && Acceptable(supported, trimmed[k]))
  {
    if n > 0 {
      PositionsAre(supported, trimmed, n - 1);
      var ps := Positions(supported, trimmed, n - 1);
      assert forall a :: 0 <= a < |ps| ==> ps[a] in ps;
    }
  }

  lemma {:induction false} KeptAtPositions(supported: string -> bool, trimmed: seq<string>, n: nat, a: nat)
    requires n <= |trimmed|
    ensures |Kept(supported, trimmed, n)| == |Positions(supported, trimmed, n)|
    ensures a < |Kept(supported, trimmed, n)| ==>
              var p := Positions(supported, trimmed, n)[a];
              p in Positions(supported, trimmed, n) && 0 <= p < n && Kept(supported, trimmed, n)[a] == trimmed[p]
  {
    if n > 0 {
      KeptAtPositions(supported, trimmed, n - 1, a);
    }
  }

  /** Every stored document is usable. */
  lemma SanitizedAreUsable(supported: string -> bool, documents: seq<string>, a: nat)
    requires a < |SanitizeDocuments(supported, documents)|
    ensures Usable(supported, SanitizeDocuments(supported, documents)[a])
  {
    var trimmed := Trimmed(documents);
    KeptAtPositions(supported, trimmed, |documents|, a);
    PositionsAre(supported, trimmed, |documents|);
    TrimIsIdempotent(documents[Positions(supported, trimmed, |documents|)[a]]);
  }

  /** At most ten usable documents are stored as they are. */
  lemma UsableAreStored(supported: string -> bool, documents: seq<string>)
    requires |documents| <= MAX_DOCUMENTS && forall d :: d in documents ==> Usable(supported, d)
    ensures SanitizeDocuments(supported, documents) == documents
  {
    assert forall i :: 0 <= i < |documents| ==> documents[i] in documents;
    assert Trimmed(documents) == documents;
    AllAreKept(supported, documents, |documents|);
  }

  /** Only usable references are stored, at most ten, and cleaning them again changes nothing. */
  lemma SanitizeKeepsUsable(supported: string -> bool, documents: seq<string>)
    ensures var clean := SanitizeDocuments(supported, documents);
            && |clean| <= 10
            && (forall d :: d in clean ==> Usable(supported, d))
            && SanitizeDocuments(supported, clean) == clean
  {
    var clean := SanitizeDocuments(supported, documents);
    forall d | d in clean
      ensures Usable(supported, d)
    {
      var a :| 0 <= a < |clean| && clean[a] == d;
      SanitizedAreUsable(supported, documents, a);
    }
    UsableAreStored(supported, clean);
  }

  /** The positions of the documents that are stored. */
  ghost function Picked(supported: string -> bool, documents: seq<string>): seq<int> {
    Take(Positions(supported, Trimmed(documents), |documents|), MAX_DOCUMENTS)
  }

  /** The documents stored are those picked, trimmed, in the order in which they were given. */
  lemma SanitizeStoresPicked(supported: string -> bool, documents: seq<string>, a: nat)
    ensures |Picked(supported, documents)| == |SanitizeDocuments(supported, documents)| <= 10
    ensures a < |Picked(supported, documents)| ==>
              var p := Picked(supported, documents)[a];
              && 0 <= p < |documents| && SanitizeDocuments(supported, documents)[a] == Trim(documents[p])
              && (a > 0 ==> Picked(supported, documents)[a - 1] < p)
  {
    KeptAtPositions(supported, Trimmed(documents), |documents|, a);
    PositionsAre(supported, Trimmed(documents), |documents|);
  }

  /** Only acceptable documents are picked, and one is left out only behind ten others. */
  lemma PickedAreFirst(supported: string -> bool, documents: seq<string>, k: nat)
    requires k < |documents|
    ensures var picked := Picked(supported, documents);
            k in picked <==>
            && Acceptable(supported, Trim(documents[k]))
            && (|picked| == 10 ==> k <= picked[|picked| - 1])
  {
    var all := Positions(supported, Trimmed(documents), |documents|);
    PositionsAre(supported, Trimmed(documents), |documents|);
    if k in all {
      TakenIff(all, k);
    }
  }

  lemma TakenIff(all: seq<int>, k: int)
    requires forall a, b :: 0 <= a < b < |all| ==> all[a] < all[b]
    requires k in all
    ensures var picked := Take(all, MAX_DOCUMENTS);
            k in picked <==> (|picked| == MAX_DOCUMENTS ==> k <= picked[|picked| - 1])
  {
    var picked := Take(all, MAX_DOCUMENTS);
    var a :| 0 <= a < |all| && all[a] == k;
    if a < |picked| {
      assert picked[a] == k;
    } else {
      assert picked[|picked| - 1] < k;
    }
  }

  /** Where no document is usable, none is ever stored. */
  lemma NothingUsable(supported: string -> bool, documents: seq<string>)
    requires forall d :: !Usable(supported, d)
    ensures SanitizeDocuments(supported, documents) == []
  {
    if SanitizeDocuments(supported, documents) != [] {
      SanitizedAreUsable(supported, documents, 0);
      assert false;
    }
  }
}
