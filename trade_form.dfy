/**
 * The trade entry form (`TradeForm.tsx`): the result classifier
 * `calculateResult`, and the submit handler with its invalid-price guard
 * and its reset of the fields after a successful submit.
 *
 * `parseFloat` is a parameter of the submit handler: a function from the
 * text of a price field to a number, `None` standing for `NaN`. The only
 * thing the model asks of it is what JavaScript guarantees: the empty
 * string does not parse.
 */
module TradeForm {
  import opened TradeData

  /** `calculateResult` on the parsed prices; `None` is the source's `null`. */
  function CalculateResult(entry: Option<real>, exit: Option<real>, direction: Direction): Option<Outcome> {
    if entry.None? || exit.None? then None
    else
      var e, x := entry.value, exit.value;
      match direction
      case Buy => Some(if x > e then Win else if x < e then Loss else BreakEven)
      case Sell => Some(if x < e then Win else if x > e then Loss else BreakEven)
  }

  function Flip(d: Direction): Direction {
    match d
    case Buy => Sell
    case Sell => Buy
  }

  function Opposite(o: Outcome): Outcome {
    match o
    case Win => Loss
    case Loss => Win
    case BreakEven => BreakEven
  }

  /** There is a result exactly when both prices parse. */
  lemma ResultDefinedIff(entry: Option<real>, exit: Option<real>, d: Direction)
    ensures CalculateResult(entry, exit, d).Some? <==> entry.Some? && exit.Some?
  {
  }

  /** BUY wins when the exit is above the entry and loses when it is below. */
  lemma BuyRule(entry: real, exit: real)
    ensures CalculateResult(Some(entry), Some(exit), Buy) == Some(Win) <==> exit > entry
    ensures CalculateResult(Some(entry), Some(exit), Buy) == Some(Loss) <==> exit < entry
  {
  }

  /** SELL is the mirror image: it wins when the exit is below the entry and loses when it is above. */
  lemma SellRule(entry: real, exit: real)
    ensures CalculateResult(Some(entry), Some(exit), Sell) == Some(Win) <==> exit < entry
    ensures CalculateResult(Some(entry), Some(exit), Sell) == Some(Loss) <==> exit > entry
  {
  }

  /** An unchanged price is break-even whichever the direction, and only then. */
  lemma BreakEvenRule(entry: real, exit: real, d: Direction)
    ensures CalculateResult(Some(entry), Some(exit), d) == Some(BreakEven) <==> exit == entry
  {
  }

  /** Flipping the direction swaps WIN and LOSS. */
  lemma FlipSwapsOutcome(entry: real, exit: real, d: Direction)
    ensures CalculateResult(Some(entry), Some(exit), Flip(d)) == Some(Opposite(CalculateResult(Some(entry), Some(exit), d).value))
  {
  }

  /** The object handed to `onSubmit`. */
  datatype FormData = FormData(
    pair: string,
    direction: Direction,
    entryPrice: real,
    exitPrice: real,
    notes: string,
    result: Outcome,
    screenshot: Option<string>)

  datatype Toast = InvalidPrices | TradeAdded | SubmitFailed

  /** A submitted record whose result agrees with its own prices and direction. */
  predicate Consistent(f: FormData) {
    CalculateResult(Some(f.entryPrice), Some(f.exitPrice), f.direction) == Some(f.result)
  }

  class TradeForm {
    var pair: string
    var direction: Direction
    var entryPrice: string
    var exitPrice: string
    var notes: string
    /** The chosen file, by name. */
    var screenshot: Option<string>
    var isLoading: bool
    /** Every call of `onSubmit`, in order. */
    var submitted: seq<FormData>
    var toasts: seq<Toast>

    /** Every record that reached `onSubmit` carried a result consistent with its prices. */
    ghost predicate Valid()
      reads this
    {
      forall i :: 0 <= i < |submitted| ==> Consistent(submitted[i])
    }

    /** The fields' initial values: empty strings, BUY and no file. */
    ghost predicate Blank()
      reads this
    {
      pair == "" && direction == Buy && entryPrice == "" && exitPrice == "" && notes == "" && screenshot == None
    }

    constructor ()
      ensures Blank() && !isLoading && submitted == [] && toasts == []
      ensures Valid()
    {
      pair, direction, entryPrice, exitPrice, notes, screenshot := "", Buy, "", "", "", None;
      isLoading := false;
      submitted, toasts := [], [];
    }

    /** The user edits the fields. */
    method Fill(pair': string, direction': Direction, entry': string, exit': string, notes': string, screenshot': Option<string>)
      modifies this
      requires Valid()
      ensures Valid()
      ensures pair == pair' && direction == direction' && entryPrice == entry' && exitPrice == exit'
      ensures notes == notes' && screenshot == screenshot'
      ensures isLoading == old(isLoading) && submitted == old(submitted) && toasts == old(toasts)
    {
      pair, direction, entryPrice, exitPrice, notes, screenshot := pair', direction', entry', exit', notes', screenshot';
    }

    /**
     * `handleSubmit`. A price that does not parse shows the error toast and
     * changes nothing else; otherwise the record goes to `onSubmit`, and the
     * fields are reset only when `onSubmit` does not throw.
     */
    method HandleSubmit(parseFloat: string -> Option<real>, onSubmitThrows: bool)
      modifies this
      requires Valid()
      requires parseFloat("") == None
      ensures Valid()
      ensures !isLoading
      ensures var r := CalculateResult(parseFloat(old(entryPrice)), parseFloat(old(exitPrice)), old(direction));
        r.None? ==>
          && submitted == old(submitted) && toasts == old(toasts) + [InvalidPrices]
          && pair == old(pair) && direction == old(direction) && entryPrice == old(entryPrice)
          && exitPrice == old(exitPrice) && notes == old(notes) && screenshot == old(screenshot)
      ensures var r := CalculateResult(parseFloat(old(entryPrice)), parseFloat(old(exitPrice)), old(direction));
        r.Some? ==>
          submitted == old(submitted) + [FormData(old(pair), old(direction), parseFloat(old(entryPrice)).value,
            parseFloat(old(exitPrice)).value, old(notes), r.value, old(screenshot))]
      ensures var r := CalculateResult(parseFloat(old(entryPrice)), parseFloat(old(exitPrice)), old(direction));
        r.Some? && !onSubmitThrows ==> Blank() && toasts == old(toasts) + [TradeAdded]
      ensures var r := CalculateResult(parseFloat(old(entryPrice)), parseFloat(old(exitPrice)), old(direction));
        r.Some? && onSubmitThrows ==>
          && toasts == old(toasts) + [SubmitFailed]
          && pair == old(pair) && direction == old(direction) && entryPrice == old(entryPrice)
          && exitPrice == old(exitPrice) && notes == old(notes) && screenshot == old(screenshot)
    {
      isLoading := true;
      var entry, exit := parseFloat(entryPrice), parseFloat(exitPrice);
      var result := CalculateResult(entry, exit, direction);
      if result.None? {
        toasts := toasts + [InvalidPrices];
        isLoading := false;
        return;
      }
      var formData := FormData(pair, direction, entry.value, exit.value, notes, result.value, screenshot);
      submitted := submitted + [formData];
      if !onSubmitThrows {
        pair, direction, entryPrice, exitPrice, notes, screenshot := "", Buy, "", "", "", None;
        toasts := toasts + [TradeAdded];
      } else {
        toasts := toasts + [SubmitFailed];
      }
      isLoading := false;
    }

    /**
     * Two presses of the submit button in a row, the first one's `onSubmit`
     * succeeding. Whatever the second `onSubmit` would do, it is never
     * reached: the first press either submits and blanks the form or is
     * refused and leaves the prices as they were, and either way the second
     * press finds prices that do not parse. So one press sends at most one
     * record, and a reset form cannot be sent twice.
     */
    method SubmitTwice(parseFloat: string -> Option<real>, secondThrows: bool)
      modifies this
      requires Valid()
      requires parseFloat("") == None
      ensures Valid()
      ensures !isLoading
      ensures |submitted| <= |old(submitted)| + 1
      ensures var r := CalculateResult(parseFloat(old(entryPrice)), parseFloat(old(exitPrice)), old(direction));
        r.Some? ==>
          && submitted == old(submitted) + [FormData(old(pair), old(direction), parseFloat(old(entryPrice)).value,
            parseFloat(old(exitPrice)).value, old(notes), r.value, old(screenshot))]
          && Blank() && toasts == old(toasts) + [TradeAdded, InvalidPrices]
      ensures var r := CalculateResult(parseFloat(old(entryPrice)), parseFloat(old(exitPrice)), old(direction));
        r.None? ==>
          && submitted == old(submitted) && toasts == old(toasts) + [InvalidPrices, InvalidPrices]
          && pair == old(pair) && direction == old(direction) && entryPrice == old(entryPrice)
          && exitPrice == old(exitPrice) && notes == old(notes) && screenshot == old(screenshot)
    {
      HandleSubmit(parseFloat, false);
      HandleSubmit(parseFloat, secondThrows);
    }
  }
}
