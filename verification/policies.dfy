/** Per-port policy overrides (the `custom_port_policies` argument of
    `ShipPortModel` in mesa/model.py): a text of comma-separated
    `name:policy` pieces, parsed into a map from port name to policy, and
    the lookup `_setup_ports` does with it.
 */
module Policies {
  import opened Base
  import opened Text

  /** The argument value that means "no overrides". */
  const NoOverrides := "None"

  /** The entry a piece defines: a piece with a colon maps the stripped
      text before the first colon to the stripped text after it; a piece
      without one defines nothing. */
  function Entry(piece: string): (e: Option<(string, string)>)
    ensures e.Some? <==> ':' in piece
    ensures e.Some? ==> e.value == (Strip(SplitFirst(piece, ':').0), Strip(SplitFirst(piece, ':').1))
    ensures e.Some? ==> Strip(e.value.0) == e.value.0
  {
    if ':' in piece then
      var halves := SplitFirst(piece, ':');
      StripIdempotent(halves.0);
      Some((Strip(halves.0), Strip(halves.1)))
    else None
  }

  /** The entries of a list of pieces, position by position. */
  function Entries(pieces: seq<string>): (es: seq<Option<(string, string)>>)
    ensures |es| == |pieces|
    ensures forall i :: 0 <= i < |pieces| ==> es[i] == Entry(pieces[i])
  {
    seq(|pieces|, i requires 0 <= i < |pieces| => Entry(pieces[i]))
  }

  /** Entry `e` is one for port `name`. */
  predicate Defines(e: Option<(string, string)>, name: string)
  {
    e.Some? && e.value.0 == name
  }

  /** The map built from the first `n` entries in order: a piece without a
      colon is skipped, and a later entry for the same name overrides an
      earlier one. */
  function CollectUpTo(es: seq<Option<(string, string)>>, n: nat): map<string, string>
    requires n <= |es|
  {
    if n == 0 then map[]
    else
      var earlier := CollectUpTo(es, n - 1);
      match es[n - 1]
      case None => earlier
      case Some(entry) => earlier[entry.0 := entry.1]
  }

  /** The overrides the argument text describes. */
  function ParseOverrides(text: string): (m: map<string, string>)
    ensures text == NoOverrides ==> m == map[]
  {
    if text == NoOverrides then map[]
    else
      var es := Entries(Split(text, ','));
      CollectUpTo(es, |es|)
  }

  /** The position of the last of the first `n` entries for `name`, if any. */
  function LastDefinition(es: seq<Option<(string, string)>>, n: nat, name: string): (k: Option<nat>)
    requires n <= |es|
    ensures k.Some? ==> k.value < n && Defines(es[k.value], name)
    ensures k.Some? ==> forall j :: k.value < j < n ==> !Defines(es[j], name)
    ensures k.None? ==> forall j :: 0 <= j < n ==> !Defines(es[j], name)
  {
    if n == 0 then None
    else if Defines(es[n - 1], name) then Some(n - 1)
    else LastDefinition(es, n - 1, name)
  }

  /** A name has an override exactly when some entry is for it, and the
      override is the policy of the last entry that is. */
  lemma {:induction false} CollectIsLastDefinition(es: seq<Option<(string, string)>>, n: nat, name: string)
    requires n <= |es|
    ensures name in CollectUpTo(es, n) <==> LastDefinition(es, n, name).Some?
    ensures name in CollectUpTo(es, n) ==>
      CollectUpTo(es, n)[name] == es[LastDefinition(es, n, name).value].value.1
  {
    if n > 0 {
      CollectIsLastDefinition(es, n - 1, name);
    }
  }

  /** Some piece defines an override for `name`. */
  predicate DefinedIn(pieces: seq<string>, name: string)
  {
    exists i :: 0 <= i < |pieces| && Defines(Entry(pieces[i]), name)
  }

  /** The last piece that defines an override for `name` gives it `policy`. */
  predicate LastDefinesAs(pieces: seq<string>, name: string, policy: string)
  {
    exists i :: 0 <= i < |pieces| && Defines(Entry(pieces[i]), name) && Entry(pieces[i]).value.1 == policy
                && forall j :: i < j < |pieces| ==> !Defines(Entry(pieces[j]), name)
  }

  /** The overrides read off the text: apart from "None", a name has an
      override exactly when some comma-separated piece defines it, and the
      override is the policy of the last piece that does. */
  lemma ParseOverridesFromPieces(text: string, name: string)
    requires text != NoOverrides
    ensures name in ParseOverrides(text) <==> DefinedIn(Split(text, ','), name)
    ensures name in ParseOverrides(text) ==> LastDefinesAs(Split(text, ','), name, ParseOverrides(text)[name])
  {
    var pieces := Split(text, ',');
    assert ParseOverrides(text) == CollectUpTo(Entries(pieces), |pieces|);
    CollectFromPieces(pieces, name);
  }

  /** The same over any list of pieces. */
  lemma CollectFromPieces(pieces: seq<string>, name: string)
    ensures name in CollectUpTo(Entries(pieces), |pieces|) <==> DefinedIn(pieces, name)
    ensures name in CollectUpTo(Entries(pieces), |pieces|) ==>
              LastDefinesAs(pieces, name, CollectUpTo(Entries(pieces), |pieces|)[name])
  {
    var es := Entries(pieces);
    CollectIsLastDefinition(es, |es|, name);
    var last := LastDefinition(es, |es|, name);
    if last.Some? {
      var i := last.value;
      assert es[i] == Entry(pieces[i]);
    }
  }

  /** The keys of the parsed map carry no surrounding white space. */
  lemma CollectedNamesAreStripped(text: string, name: string)
    requires name in ParseOverrides(text)
    ensures Strip(name) == name
  {
    var es := Entries(Split(text, ','));
    CollectIsLastDefinition(es, |es|, name);
  }

  /** The policy `_setup_ports` hands to a port: the override for its exact
      name, if any. */
  function OverrideFor(name: string, overrides: map<string, string>): (policy: Option<string>)
    ensures policy.Some? <==> name in overrides
    ensures policy.Some? ==> policy.value == overrides[name]
  {
    if name in overrides then Some(overrides[name]) else None
  }

  /** A name written with spaces around it never matches: keys are stripped,
      so a port whose own name has leading or trailing white space gets no
      override. */
  lemma UnstrippedNameHasNoOverride(name: string, text: string)
    requires Strip(name) != name
    ensures OverrideFor(name, ParseOverrides(text)).None?
  {
    if name in ParseOverrides(text) {
      CollectedNamesAreStripped(text, name);
    }
  }
}
