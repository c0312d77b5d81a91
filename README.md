# Account ledger and placeholder substitution, in Dafny

This project models two pieces of the repository.

**The account ledger of `BankingCore.py`** (module `Banking`, file `banking.dfy`).
There are three account variants: `BankAccount`, `SavingsAccount` and `CurrentAccount`.
Each holds a holder name and a mutable balance. `deposit` and `withdraw` report success
as a boolean instead of raising. The variants differ only in how far `withdraw` may take
the balance, which is called the *floor*:

- a basic or savings account may not go below 0;
- a current account may go down to `-overdraft_limit`.

`apply_interest` pays `balance * interest_rate` through the ordinary `deposit`.
`transfer` withdraws from one account and, only if that succeeded, deposits into the other.

The Python class hierarchy becomes one class, `Banking.Account`. Its constant `kind`
(`Basic`, `Savings(interestRate)` or `Current(overdraftLimit)`) selects the variant.
The holder name and the variant parameter are `const` fields, so no operation can change
them. Only `balance` is a mutable field. Each method that changes it says so with
`modifies this`balance`. Each method is also tied to a pure step function
(`DepositStep`, `WithdrawStep`, `InterestStep`, `TransferStep`). The properties are proved
about those functions and about `Run`, which is the balance after a whole sequence of calls.
Amounts are exact `real`s.

**`TemplateProcessor.replace_placeholders`** (module `Templates`, file `templates.dfy`).
This function takes each (placeholder, value) pair of the replacements dictionary in
insertion order. It applies Python's `str.replace` to the running string. `Replace` models
`str.replace` exactly: every non-overlapping occurrence is rewritten, scanning left to right.
An empty placeholder is handled the way Python handles it: the value is inserted before
every character and at the end. `Count` is the number of occurrences rewritten, as Python's
`str.count` gives it. `ReplaceAll` applies a mapping in order. The method
`ReplacePlaceholders` is the loop of `replace_placeholders`, proved against `ReplaceAll`. The dictionary
is modelled as a sequence of pairs, which fixes the iteration order.

The interest rate and the overdraft limit are meant to be non-negative, but the code
checks neither. The model follows the code, so both are arbitrary reals here. A negative
overdraft limit simply gives a positive floor.

## Model

| member | source | states |
|---|---|---|
| Banking.DepositStep | BankingCore.py:11-18 | a deposit succeeds exactly when the amount is positive; on success the balance grows by the amount, on failure it is unchanged; it never decreases |
| Banking.WithdrawStep | BankingCore.py:20-32 | for every variant (including CurrentAccount's override at lines 68-80), a withdraw succeeds exactly when `0 < amount <= balance - floor`; on success the balance drops by the amount and is at or above the floor, on failure it is unchanged; a balance at or above the floor stays there |
| Banking.InterestStep | BankingCore.py:49-52 | when `balance * rate > 0` the balance becomes `balance + balance * rate`; otherwise the deposit rejects the interest and the balance is unchanged; interest never lowers the balance |
| Banking.Step | BankingCore.py:11-80 | any single deposit, withdraw or interest call: a rejected call changes nothing, a non-positive deposit or withdraw is always rejected, and no call takes a balance at or above the floor below it |
| Banking.RunKeepsFloor | BankingCore.py:11-80 | after any sequence of calls, `balance >= 0` still holds for basic and savings accounts and `balance >= -overdraft_limit` for current accounts, if it held before |
| Banking.RunSkipsRejected | BankingCore.py:11-80 | a rejected call can be removed from any sequence of calls without changing the final balance |
| Banking.TransferStep | BankingCore.py:83-96 | a transfer succeeds exactly when the source's withdraw does; then the destination's deposit cannot fail, the source loses the amount and the destination gains it; on failure neither balance changes; the sum of the two balances is always preserved, and so is the source's floor |
| Banking.Account.constructor | BankingCore.py:6-9 | an account starts with the given holder, variant and balance, the balance defaulting to 0 as in all three `__init__`s (lines 6, 45, 64); the variant's parameter defaults are the constants `DefaultInterestRate` (0.01) and `DefaultOverdraftLimit` (500); BankingCore.py checks nothing at construction, so neither does the constructor |
| Banking.Account.GetBalance | BankingCore.py:37-38 | returns the current balance and modifies nothing |
| Banking.Account.Deposit | BankingCore.py:11-18 | returns true exactly when the amount is positive; the balance becomes `old + amount` on success and is unchanged otherwise; the floor is kept; it agrees with `DepositStep` |
| Banking.Account.Withdraw | BankingCore.py:68-80 | follows CurrentAccount's rule (reject when `amount > balance + overdraft_limit`) for current accounts and BankAccount's rule (lines 20-32, reject when `amount > balance`) otherwise; returns true exactly when `0 < amount <= old balance - floor`; on success the balance becomes `old - amount`; the floor is kept; it agrees with `WithdrawStep` |
| Banking.Account.ApplyInterest | BankingCore.py:49-52 | only on savings accounts; the balance becomes `b + b*r` when `b*r > 0` and stays `b` otherwise; the floor is kept |
| Banking.Transfer | BankingCore.py:83-96 | withdraws first and deposits only on success; on failure both balances are unchanged; on success between distinct accounts the source drops and the destination rises by the amount; when both are the same account its balance ends unchanged; the sum of the two balances never changes; both floors are kept |
| Banking.DefaultInterest | BankingCore.py:45-52 | a savings account with the default 1% rate grows from 200 to 202 on `apply_interest`; one opened with the default balance 0 stays at 0, because the zero interest is rejected by `deposit` |
| Banking.DefaultOverdraft | BankingCore.py:64-80 | a current account with the default balance 0 and the default overdraft 500 accepts a withdraw of exactly 500, refuses a further 0.01, and ends at -500 |
| Banking.SampleSession | BankingCore.py:99-110 | the sample session ends with the savings account at 665 and the current account at 1200 (1000 + 500 - 200, plus 5% interest = 1365, minus a 700 transfer) |
| Templates.Interleave | innobot-automation/src/core/template_processor.py:22 | Python's `str.replace` with an empty placeholder: the value before every character and at the end; no `ensures` of its own, it is described by `InterleaveLength` and `InterleaveEmpty` |
| Templates.Replace | innobot-automation/src/core/template_processor.py:22 | Python's `str.replace`, one step of the loop; no `ensures` of its own (a body-shaped one would say nothing), it is described by `ReplaceAbsent`, `ReplaceAtFirstOccurrence`, `ReplaceLength`, `ReplaceSelf` and `InterleaveLength` |
| Templates.Count | innobot-automation/src/core/template_processor.py:22 | the number of occurrences one step rewrites, as Python's `str.count`; no `ensures` of its own beyond its `nat` type, it is described by `CountZeroIffAbsent`, `CountAtFirstOccurrence` and `ReplaceLength` |
| Templates.InterleaveLength | innobot-automation/src/core/template_processor.py:22 | replacing the empty placeholder inserts the value `len + 1` times |
| Templates.ReplaceLength | innobot-automation/src/core/template_processor.py:22 | after one step the length is `len + k * (len(value) - len(placeholder))`, where `k` is the number of occurrences replaced |
| Templates.ReplaceSelf | innobot-automation/src/core/template_processor.py:22 | replacing a placeholder by itself is the identity |
| Templates.CountZeroIffAbsent | innobot-automation/src/core/template_processor.py:22 | a step replaces nothing exactly when the placeholder does not occur in the current string |
| Templates.ReplaceAbsent | innobot-automation/src/core/template_processor.py:22 | a placeholder that does not occur leaves the string unchanged |
| Templates.ReplaceAfterPrefix | innobot-automation/src/core/template_processor.py:22 | text in which no occurrence starts is copied unchanged, and the scan goes on after it |
| Templates.CountAfterPrefix | innobot-automation/src/core/template_processor.py:22 | text in which no occurrence starts adds nothing to the number of occurrences replaced |
| Templates.ReplaceAtFirstOccurrence | innobot-automation/src/core/template_processor.py:22 | the first occurrence, at index `i`, is replaced: the result is the text before it, then the value, then the replacement of the text after the occurrence, so occurrences never overlap and the scan runs left to right |
| Templates.CountAtFirstOccurrence | innobot-automation/src/core/template_processor.py:22 | the first occurrence counts once, and counting resumes after its end |
| Templates.ReplaceAll | innobot-automation/src/core/template_processor.py:20-23 | the fold of the loop: each pair applied in mapping order to the previous output; no `ensures` of its own, it is described by `ReplaceAllFirst`, `ReplaceAllAppend`, `ReplaceAllSelf` and `ReplacePlaceholders` |
| Templates.ReplaceAllFirst | innobot-automation/src/core/template_processor.py:21-22 | the first pair of the mapping is applied to the input, and the remaining pairs to its output |
| Templates.ReplaceAllAppend | innobot-automation/src/core/template_processor.py:20-23 | applying a mapping split in two equals applying the first part and then the second part to its output, so the pairs apply in order, each on the previous output |
| Templates.ReplaceAllSelf | innobot-automation/src/core/template_processor.py:20-23 | a mapping that sends every placeholder to itself leaves the input unchanged |
| Templates.ReplacePlaceholders | innobot-automation/src/core/template_processor.py:18-23 | the loop returns `ReplaceAll(html, replacements)`, which applies each pair in mapping order to the previous output; an empty mapping returns the input unchanged |

## Left out

- `display_balance` and every console message in `BankingCore.py` are left out, because they are presentation only. `transfer` returns nothing in BankingCore.py. The `ok` result of `Banking.Transfer` stands for which of its two messages ("Transferred ..." or "Transfer failed.") is printed.
- Python floating point is not modelled. Amounts are exact reals, so `balance * interest_rate` has no rounding. For example, the sample session's interest is exactly 65.
- Construction does not check the floor, because BankingCore.py checks nothing at construction. The floor is therefore a property each operation preserves (`old(Valid()) ==> Valid()`), not an object invariant that always holds.
- Calling `apply_interest` on a non-savings account raises `AttributeError` in Python. `Banking.Account.ApplyInterest` instead requires a savings account, and `Banking.Step` requires the same through `Supports`.
- Python's duck typing is not modelled. `transfer` accepts any objects with `withdraw` and `deposit` methods, but the model takes `Account` objects only.
- Non-numeric amounts and non-string replacement values (Python `TypeError`) are not modelled.
- `Banking.TransferStep` describes only transfers between two distinct accounts. The same-account case is stated on `Banking.Transfer` itself: the balance ends unchanged.
- Concurrency is not modelled, because neither Python file uses threads.
- `TemplateProcessor.get_document_html` (reads `template.html`) and `html_to_pdf` (writes a file through the xhtml2pdf library) are left out as file I/O and a foreign library. The processor's `logger` field is never used by `replace_placeholders`, so the method is modelled as a module-level method.
- `random_generator.py`, `orchestrator.py`, `main.py`, `config_loader.py`, `storage.py` and `logger.py` are left out. They produce random values, read configuration and write files, and have no rules of their own to verify.
- A Python dictionary cannot hold the same placeholder twice, but the sequence of pairs used here can. The model applies such a sequence in order all the same.
