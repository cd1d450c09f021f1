/** Values as an operator is shown them, without unmasking. */
module MaskedValues {
  import opened Wrappers
  import Aead
  import opened Values
  import opened Resources
  import opened Provisioning
  import opened ResourceRuns
  import opened ResourceValues

  lemma {:induction false} MaskedRows(c: Cryptor, fields: map<nat, Field>, header: Header, rows: seq<JoinRow>)
    requires KnownFields(fields, rows) && forall k :: 0 <= k < |rows| ==> rows[k].resource == header.id
    requires Shown(c, fields, header, rows, true).Ok?
    ensures Shown(c, fields, header, rows, false).Ok?
    ensures var clear, masked := Shown(c, fields, header, rows, true).value,
      Shown(c, fields, header, rows, false).value;
      && |clear| == |masked| == |rows|
      && forall k :: 0 <= k < |rows| ==>
           masked[k] == if fields[rows[k].field].isSecret && rows[k].hasValue
                        then clear[k].(value := MASKED_VALUE) else clear[k]
    decreases |rows|
  {
    hide DecodeValue;
    if rows != [] {
      MaskedRows(c, fields, header, rows[..|rows| - 1]);
    }
  }

  lemma MergedHasValue(s: State, r: nat, f: nat)
    requires r in s.db.resources
    ensures Joined(s.db, r, f).hasValue <==> HasValueRow(s.db, r, f)
  {
  }

  /** Without unmasking, in every reachable state, a secret that has a value shows as
      eight bullets whatever its text is, and everything else as its effective text. */
  lemma SecretsStayMasked(c: Cryptor, states: seq<State>, steps: seq<Step>, i: nat, r: nat)
    requires Aead.ValidCryptor(c) && Execution(c, states, steps) && i < |states| && r in states[i].db.resources
    ensures GetHeader(states[i].db, r).Some?
    ensures var s := states[i];
      var shown := Effective(c, s.db, GetHeader(s.db, r).value, false);
      var list := ListFields(s.db, s.db.resources[r].definition);
      && shown.Ok? && |shown.value| == |list|
      && forall k :: 0 <= k < |list| ==>
           && list[k] in s.db.fields && shown.value[k].field == s.db.fields[list[k]]
           && shown.value[k].value ==
                if s.db.fields[list[k]].isSecret && HasValueRow(s.db, r, list[k])
                then "\U{2022}\U{2022}\U{2022}\U{2022}\U{2022}\U{2022}\U{2022}\U{2022}"
                else EffectiveText(s, r, list[k])
  {
    var s := states[i];
    EveryRunKeepsInv(c, states, steps, i);
    ResourcesHaveHeaders(s.db, r);
    var header := GetHeader(s.db, r).value;
    BuilderShowsLastWrites(c, s, header);
    var list := ListFields(s.db, s.db.resources[r].definition);
    ResourceRowsHaveFields(s.db, r);
    var rows := JoinFields(s.db, r, list);
    assert rows == ResourceRows(s.db, r);
    hide Inv;
    hide Shown;
    hide ListFields;
    hide GetHeader;
    hide EffectiveText;
    MaskedRows(c, s.db.fields, header, rows);
    forall k | 0 <= k < |list|
      ensures list[k] in s.db.fields && (Joined(s.db, r, list[k]).hasValue <==> HasValueRow(s.db, r, list[k]))
    {
      assert list[k] in list;
      MergedHasValue(s, r, list[k]);
    }
    hide HasValueRow;
    hide Joined;
    hide JoinFields;
  }
}
