# Bookstore business logic in Dafny

A verified model of the business logic of a small bookstore application
(`bookstore.py`). It covers three things:

- The inventory table. Its columns are Title, Author, Publisher, Stock and Price. The administrative operations are add a book, edit its stock and price, remove it, and list the distinct authors.
- The process-wide shopping cart. Adding a line snapshots the book's current price. The cart listing computes the running total.
- The two-phase checkout. Validation looks at each cart line on its own and stops at the first failure. The apply phase takes stock off the inventory, appends one sale record per line and accumulates the total.

The state lives in a class, `Bookstore.Store`. Its fields are the inventory, the sales ledger and the cart. Each operation the user interface invokes is one method of it. The methods return an outcome value instead of the original's status message.

The whole-table rebuilds are pure functions over sequences. The cart methods, the cell writes and the two checkout loops are imperative. Each method is proved against the function that specifies it, or states the new state directly, and the properties live in lemmas about those functions.

The modules, one file each, are:

- `Wrappers` (`Option`)
- `Inventory` (rows, title lookup, add/edit/remove, title uniqueness)
- `Authors` (string order, sorted insertion, author list)
- `Cart` (lines, totals, listing)
- `Ledger` (sale records)
- `Checkout` (validation and apply phase as functions)
- `Bookstore` (the `Store` class and two replayed scenarios)

Conventions:

- Prices are integer amounts in the smallest currency unit, so every `quantity * price` and every total is exact.
- Stock is an `int`: the apply phase can drive it below zero, see below.
- An Author cell holding the empty string stands for a missing cell. The table goes through a CSV file on every operation, and an empty cell comes back missing. `get_unique_authors` drops missing cells.

Two behaviours of the code are modelled as written:

- **Validation is per line** (bookstore.py:114-120). Each line's own quantity is compared with the stock as it was before checkout. So two lines of 3 and 4 copies against a stock of 5 both pass, and the apply phase leaves the stock at -2. `Checkout.DuplicateLinesOverdraw` proves this, and `Bookstore.OverdrawScenario` replays it through the class.
- **The cart is never emptied.** The final step of checkout (bookstore.py:131) calls `clear` on a name that is not defined. The global cart has a different name, so the call raises only after the inventory and the ledger have been updated. In the model, checkout completes its effects on both tables, and the cart is left exactly as it was. A second checkout of the same cart therefore validates it again.

One might expect validation to count earlier lines of the same title, and the cart to be emptied after a purchase. The code does neither, and the model follows the code.

## Model

| member | source | states |
|---|---|---|
| Inventory.FindTitle | bookstore.py:157-158 | the first row carrying the title, and none exactly when no row carries it |
| Inventory.FindTitleReadsTitles | bookstore.py:124 | the looked-up row depends only on the Title column, so the lookups after stock writes find the same row |
| Inventory.AddBook | bookstore.py:139-153 | an existing title is refused with the table unchanged; otherwise exactly one row is appended at the end, the old rows stay as a prefix, and the author is the typed-in name exactly when "Other" is selected |
| Inventory.AddBookKeepsTitlesDistinct | bookstore.py:142-151 | adding a book keeps titles pairwise distinct |
| Inventory.EditBook | bookstore.py:155-165 | an unknown title changes nothing; otherwise only the first matching row changes; its stock becomes the new stock exactly when that is non-negative, likewise the price, and title, author and publisher are kept |
| Inventory.EditBookKeepsTitles | bookstore.py:160-163 | editing never changes a title nor moves a row |
| Inventory.Without | bookstore.py:171 | the filtered table holds exactly the rows whose title differs, and is no longer than the table |
| Inventory.WithoutKeepsOrder | bookstore.py:171 | filtering distributes over concatenation, so the kept rows keep their relative order |
| Inventory.WithoutAbsent | bookstore.py:169-171 | a table without the title passes the filter unchanged |
| Inventory.WithoutShrinks | bookstore.py:169-171 | a table with the title loses at least one row to the filter |
| Inventory.RemoveBook | bookstore.py:167-173 | an unknown title changes nothing; otherwise every row with the title goes, the rest are kept in order, and the table gets shorter |
| Inventory.WithoutKeepsTitlesDistinct | bookstore.py:171 | removing a book keeps titles pairwise distinct |
| Inventory.AdminKeepsTitlesDistinct | bookstore.py:139-173 | titles stay pairwise distinct across any sequence of add, edit and remove requests |
| Authors.BeforeAsymmetric | bookstore.py:137 | the string order used for sorting is asymmetric |
| Authors.BeforeTransitive | bookstore.py:137 | the string order used for sorting is transitive |
| Authors.BeforeTotal | bookstore.py:137 | any two different strings are ordered one way or the other |
| Authors.Insert | bookstore.py:137 | inserting into an ascending duplicate-free list keeps it so and adds exactly the new name |
| Authors.UniqueAuthors | bookstore.py:135-137 | the author list is strictly ascending and holds exactly the non-missing authors of the table |
| Authors.StrictlySortedIsDuplicateFree | bookstore.py:137 | the author list has no duplicates |
| Authors.SortedListingIsUnique | bookstore.py:137 | the author list is determined by the set of authors alone |
| Ledger.SalesFor | bookstore.py:49-59 | one record per cart line, in cart order, each with the checkout's date, the line's title, quantity and unit price, and Total = Quantity * PricePerUnit |
| Ledger.SalesTotalMatchesCart | bookstore.py:56 | the Totals of the recorded sales add up to the cart total |
| Checkout.FirstRejection | bookstore.py:114-120 | no rejection exactly when every line's title exists and its own quantity fits that row's stock; otherwise the rejection of the first line that fails |
| Checkout.FirstRejectionAt | bookstore.py:114-120 | when every line before i passes and line i fails, validation reports line i's rejection |
| Checkout.ApplyAll | bookstore.py:123-125 | the apply phase keeps the number of rows |
| Checkout.ApplyAllKeepsTitles | bookstore.py:124-125 | the apply phase changes no title and moves no row |
| Checkout.ApplyAllEffect | bookstore.py:123-125 | each row keeps every cell but Stock, which drops by the quantities of the lines whose first matching row it is |
| Checkout.DemandWithDistinctTitles | bookstore.py:124 | with unique titles, the quantity taken from a row is the cart's total quantity of its title |
| Checkout.ApplyAllTakesQuantities | bookstore.py:123-125 | with unique titles, each row's stock drops by the cart's total quantity of its title and nothing else in it changes |
| Checkout.UntouchedRowsUnchanged | bookstore.py:123-125 | a row no cart line names comes through the apply phase unchanged |
| Checkout.DuplicateLinesOverdraw | bookstore.py:114-125 | two lines for one title that each fit the stock, but not together, pass validation and leave the stock negative |
| Bookstore.Store.constructor | bookstore.py:78 | the process starts with the loaded tables and an empty cart |
| Bookstore.Store.AddToCart | bookstore.py:80-94 | the title is checked before the quantity, and either failure leaves the cart unchanged; otherwise exactly one line is appended with the price of the first matching row |
| Bookstore.Store.DisplayCart | bookstore.py:96-106 | empty exactly for an empty cart; otherwise one listing line per cart line and the cart total |
| Bookstore.Store.Checkout | bookstore.py:108-132 | an empty cart or a rejected line changes neither table; otherwise the inventory is the apply phase's result, the ledger grows by the cart's sale records, the total is the cart total, and the cart is kept |
| Bookstore.Store.Validate | bookstore.py:114-120 | the validation loop returns exactly the first rejection |
| Bookstore.Store.Apply | bookstore.py:122-127 | the apply loop's in-place stock writes, appended records and accumulated total are those of the apply phase |
| Bookstore.Store.AddBook | bookstore.py:139-153 | the stored table and outcome are those of add_book |
| Bookstore.Store.EditBook | bookstore.py:155-165 | the two in-place cell writes give the table and outcome of edit_book |
| Bookstore.Store.RemoveBook | bookstore.py:167-173 | the stored table and outcome are those of remove_book |

## Left out

- The Gradio user interface and its event wiring (bookstore.py:176-225) are presentation only.
- CSV persistence is not modelled. This covers `initialize_files`, `load_inventory`, `save_inventory`, `load_sales` and the file write in `save_sale`. The tables are in-memory sequences held by the `Store`.
- Partial failures of those file writes are not modelled. For example, the sales are saved line by line before the inventory is saved.
- `generate_pdf_receipt` is a call into a PDF library with no business logic. Checkout returns the total instead of a receipt path.
- `datetime.now()` is not modelled. Checkout takes the formatted timestamp as a parameter, and all records of one checkout carry it. The original reads the clock once per line.
- Status messages, the currency sign and the two-decimal formatting of amounts are replaced by outcome datatypes and integer amounts.
- Bookstore.Store.Checkout: a successful checkout returns its total. In the original, the exception raised at bookstore.py:131 means the success message and the receipt never reach the caller. The effects on the two tables are modelled in full.
- The model treats only the empty string as a missing cell. Reading the CSV file back also turns strings such as "NA", "N/A", "null", "None" and "nan" into missing values. So an author typed in as "NA" is dropped from the original's author list but kept by `Authors.UniqueAuthors`. A title "NA" is never found by the membership checks at bookstore.py:82, 142 and 169, so the original would add it twice.
- Quantities, stock and prices are integers. The form's number fields deliver floats, and `add_to_cart` (bookstore.py:85) accepts a quantity such as 1.5. Fractional quantities and stocks are not modelled.
- Missing-value handling is modelled only for the Author column, where an empty string stands for a missing cell. Missing Title, Stock or Price cells, and the float arithmetic that pandas applies to them, are not modelled.
