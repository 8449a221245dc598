/** The write-authorization actions and their frozen wire names. */
module Actions {
  import opened Text

  datatype Action =
    | OptionOrderSubmit | OptionOrderCancel | ConditionalOrderCreate | ConditionalOrderCancel
    | OptionRfqCreate | OptionRfqQuoteSubmit | OptionRfqAccept | OptionRfqCancel
    | OptionMultiLegRfqCreate | OptionMultiLegRfqQuoteSubmit | OptionMultiLegRfqAccept
    | OptionMultiLegRfqCancel | OptionExecutionIntentSignatureSubmit | OptionTwapCreate
    | OptionTwapCancel | SubaccountCreate | SubaccountRename | PerpOrderSubmit | PerpOrderCancel

  function ActionName(a: Action): (s: string) {
    match a
    case OptionOrderSubmit => "OPTION_ORDER_SUBMIT"
    case OptionOrderCancel => "OPTION_ORDER_CANCEL"
    case ConditionalOrderCreate => "CONDITIONAL_ORDER_CREATE"
    case ConditionalOrderCancel => "CONDITIONAL_ORDER_CANCEL"
    case OptionRfqCreate => "OPTION_RFQ_CREATE"
    case OptionRfqQuoteSubmit => "OPTION_RFQ_QUOTE_SUBMIT"
    case OptionRfqAccept => "OPTION_RFQ_ACCEPT"
    case OptionRfqCancel => "OPTION_RFQ_CANCEL"
    case OptionMultiLegRfqCreate => "OPTION_MULTI_LEG_RFQ_CREATE"
    case OptionMultiLegRfqQuoteSubmit => "OPTION_MULTI_LEG_RFQ_QUOTE_SUBMIT"
    case OptionMultiLegRfqAccept => "OPTION_MULTI_LEG_RFQ_ACCEPT"
    case OptionMultiLegRfqCancel => "OPTION_MULTI_LEG_RFQ_CANCEL"
    case OptionExecutionIntentSignatureSubmit => "OPTION_EXECUTION_INTENT_SIGNATURE_SUBMIT"
    case OptionTwapCreate => "OPTION_TWAP_CREATE"
    case OptionTwapCancel => "OPTION_TWAP_CANCEL"
    case SubaccountCreate => "SUBACCOUNT_CREATE"
    case SubaccountRename => "SUBACCOUNT_RENAME"
    case PerpOrderSubmit => "PERP_ORDER_SUBMIT"
    case PerpOrderCancel => "PERP_ORDER_CANCEL"
  }

  const ALL_ACTIONS: seq<Action> := [
    OptionOrderSubmit, OptionOrderCancel, ConditionalOrderCreate, ConditionalOrderCancel, OptionRfqCreate,
    OptionRfqQuoteSubmit, OptionRfqAccept, OptionRfqCancel, OptionMultiLegRfqCreate,
    OptionMultiLegRfqQuoteSubmit, OptionMultiLegRfqAccept, OptionMultiLegRfqCancel,
    OptionExecutionIntentSignatureSubmit, OptionTwapCreate, OptionTwapCancel,
    SubaccountCreate, SubaccountRename, PerpOrderSubmit, PerpOrderCancel
  ]

  function FindAction(s: string, actions: seq<Action>): (r: Option<Action>) {
    if actions == [] then None
    else if ActionName(actions[0]) == s then Some(actions[0])
    else FindAction(s, actions[1..])
  }

  /** `WriteAuthAction::parse`: the table of names read backwards. */
  function ParseAction(s: string): (r: Option<Action>) {
    FindAction(s, ALL_ACTIONS)
  }

  /** Length, first and last-but-one character: enough to tell the names apart. */
  function Mark(s: string): (m: (nat, char, char)) {
    if |s| < 2 then (|s|, ' ', ' ') else (|s|, s[0], s[|s| - 2])
  }

  function ActionMark(a: Action): (m: (nat, char, char)) {
    match a
    case OptionOrderSubmit => (19, 'O', 'I')
    case OptionOrderCancel => (19, 'O', 'E')
    case ConditionalOrderCreate => (24, 'C', 'T')
    case ConditionalOrderCancel => (24, 'C', 'E')
    case OptionRfqCreate => (17, 'O', 'T')
    case OptionRfqQuoteSubmit => (23, 'O', 'I')
    case OptionRfqAccept => (17, 'O', 'P')
    case OptionRfqCancel => (17, 'O', 'E')
    case OptionMultiLegRfqCreate => (27, 'O', 'T')
    case OptionMultiLegRfqQuoteSubmit => (33, 'O', 'I')
    case OptionMultiLegRfqAccept => (27, 'O', 'P')
    case OptionMultiLegRfqCancel => (27, 'O', 'E')
    case OptionExecutionIntentSignatureSubmit => (40, 'O', 'I')
    case OptionTwapCreate => (18, 'O', 'T')
    case OptionTwapCancel => (18, 'O', 'E')
    case SubaccountCreate => (17, 'S', 'T')
    case SubaccountRename => (17, 'S', 'M')
    case PerpOrderSubmit => (17, 'P', 'I')
    case PerpOrderCancel => (17, 'P', 'E')
  }

  predicate NameFacts(a: Action) {
    '|' !in ActionName(a) && Mark(ActionName(a)) == ActionMark(a)
  }

  predicate IsRfqAction(a: Action) {
    a.OptionRfqCreate? || a.OptionRfqQuoteSubmit? || a.OptionRfqAccept? || a.OptionRfqCancel?
  }

  predicate IsMultiLegAction(a: Action) {
    a.OptionMultiLegRfqCreate? || a.OptionMultiLegRfqQuoteSubmit? || a.OptionMultiLegRfqAccept?
    || a.OptionMultiLegRfqCancel? || a.OptionExecutionIntentSignatureSubmit?
  }

  predicate IsOrderAction(a: Action) {
    a.OptionOrderSubmit? || a.OptionOrderCancel? || a.ConditionalOrderCreate? || a.ConditionalOrderCancel?
  }

  lemma RfqNames(a: Action)
    requires IsRfqAction(a)
    ensures NameFacts(a)
  {
  }

  lemma MultiLegNames(a: Action)
    requires IsMultiLegAction(a)
    ensures NameFacts(a)
  {
  }

  lemma OrderNames(a: Action)
    requires IsOrderAction(a)
    ensures NameFacts(a)
  {
  }

  lemma OtherNames(a: Action)
    requires !IsRfqAction(a) && !IsMultiLegAction(a) && !IsOrderAction(a)
    ensures NameFacts(a)
  {
  }

  lemma ActionNameFacts(a: Action)
    ensures NameFacts(a)
  {
    if IsRfqAction(a) {
      RfqNames(a);
    } else if IsMultiLegAction(a) {
      MultiLegNames(a);
    } else if IsOrderAction(a) {
      OrderNames(a);
    } else {
      OtherNames(a);
    }
  }

  lemma ActionNameInjective(a: Action, b: Action)
    requires ActionName(a) == ActionName(b)
    ensures a == b
  {
  }

  lemma {:induction false} FindActionSound(s: string, actions: seq<Action>)
    ensures FindAction(s, actions).Some? ==> s == ActionName(FindAction(s, actions).value)
  {
    if actions != [] {
      FindActionSound(s, actions[1..]);
    }
  }

  lemma {:induction false} FindActionComplete(a: Action, actions: seq<Action>)
    requires a in actions
    ensures FindAction(ActionName(a), actions) == Some(a)
  {
    if ActionName(actions[0]) == ActionName(a) {
      ActionNameInjective(actions[0], a);
    } else {
      FindActionComplete(a, actions[1..]);
    }
  }

  /** The wire names are distinct: parsing undoes printing, and nothing else parses. */
  lemma ActionNamesExact(a: Action, s: string)
    ensures ParseAction(s) == Some(a) <==> s == ActionName(a)
  {
    FindActionSound(s, ALL_ACTIONS);
    FindActionComplete(a, ALL_ACTIONS);
  }
}
