/** The catalogue tables and what one call of their services does: categories,
    products, suppliers, inventory items, recipes and their ingredients.  Rows
    that other rows refer to are deactivated instead of deleted. */
module Catalogue {
  import opened Wrappers
  import opened Existence
  import opened Text

  type Id = nat

  datatype Category = Category(name: string, active: bool)
  datatype Product = Product(sku: string, categoryId: Id, active: bool)
  datatype Supplier = Supplier(code: string, active: bool)
  datatype Item = Item(code: string, supplierId: Option<Id>, active: bool)
  datatype Recipe = Recipe(productId: Id, active: bool)
  datatype Ingredient = Ingredient(recipeId: Id, inventoryItemId: Id, quantity: real)

  /** `movements` maps a stock movement to its item and `ticketLines` a ticket
      line to its product; `next` is the next id, given out once. */
  datatype Db = Db(
    categories: map<Id, Category>,
    products: map<Id, Product>,
    suppliers: map<Id, Supplier>,
    items: map<Id, Item>,
    recipes: map<Id, Recipe>,
    ingredients: map<Id, Ingredient>,
    movements: map<Id, Id>,
    ticketLines: map<Id, Id>,
    next: Id)

  const EMPTY_DB := Db(map[], map[], map[], map[], map[], map[], map[], map[], 0)

  // ---------- request bodies ----------

  datatype UpdateCategoryDto = UpdateCategoryDto(name: Patch<string>, active: Patch<bool>)
  datatype UpdateProductDto = UpdateProductDto(sku: Patch<string>, categoryId: Patch<Id>, active: Patch<bool>)
  datatype UpdateSupplierDto = UpdateSupplierDto(code: Patch<string>, active: Patch<bool>)

  /** The supplier field of an item's request body: left out, null, an empty
      string, or an id. */
  datatype SupplierRef = Absent | Null | Blank | To(id: Id)

  datatype UpdateItemDto = UpdateItemDto(code: Patch<string>, supplier: SupplierRef, active: Patch<bool>)

  datatype IngredientDto = IngredientDto(inventoryItemId: Id, quantity: real)

  datatype UpdateRecipeDto = UpdateRecipeDto(
    productId: Patch<Id>,
    active: Patch<bool>,
    ingredients: Option<seq<IngredientDto>>)

  // ---------- categories ----------

  /** Names are compared without regard to letter case. */
  predicate SameName(a: string, b: string) {
    Lower(a) == Lower(b)
  }

  predicate NameTaken(categories: map<Id, Category>, name: string) {
    exists k :: k in categories && SameName(categories[k].name, name)
  }

  predicate NameTakenByOther(categories: map<Id, Category>, name: string, id: Id) {
    exists k :: k in categories && k != id && SameName(categories[k].name, name)
  }

  predicate HasProducts(products: map<Id, Product>, category: Id) {
    exists k :: k in products && products[k].categoryId == category
  }

  function CreateCategory(db: Db, name: string, active: bool): Result<Db> {
    if NameTaken(db.categories, name) then Err(BadRequest)
    else Ok(db.(categories := db.categories[db.next := Category(name, active)], next := db.next + 1))
  }

  function UpdateCategory(db: Db, id: Id, dto: UpdateCategoryDto): Result<Db> {
    if id !in db.categories then Err(NotFound)
    else
      var row := db.categories[id];
      if dto.name.Put? && dto.name.value != row.name && NameTakenByOther(db.categories, dto.name.value, id)
      then Err(BadRequest)
      else Ok(db.(categories := db.categories[id := Category(dto.name.On(row.name), dto.active.On(row.active))]))
  }

  function RemoveCategory(db: Db, id: Id): Result<Db> {
    if id !in db.categories then Err(NotFound)
    else if HasProducts(db.products, id)
    then Ok(db.(categories := db.categories[id := db.categories[id].(active := false)]))
    else Ok(db.(categories := db.categories - {id}))
  }

  // ---------- products ----------

  predicate SkuTaken(products: map<Id, Product>, sku: string) {
    exists k :: k in products && products[k].sku == sku
  }

  predicate HasTicketLines(ticketLines: map<Id, Id>, product: Id) {
    exists k :: k in ticketLines && ticketLines[k] == product
  }

  function RecipesWithout(recipes: map<Id, Recipe>, product: Id): map<Id, Recipe> {
    map k | k in recipes && recipes[k].productId != product :: recipes[k]
  }

  function IngredientsIn(ingredients: map<Id, Ingredient>, recipes: set<Id>): map<Id, Ingredient> {
    map k | k in ingredients && ingredients[k].recipeId in recipes :: ingredients[k]
  }

  function CreateProduct(db: Db, dto: Product): Result<Db> {
    if SkuTaken(db.products, dto.sku) then Err(Conflict)
    else if dto.categoryId !in db.categories then Err(BadRequest)
    else Ok(db.(products := db.products[db.next := dto], next := db.next + 1))
  }

  function UpdateProduct(db: Db, id: Id, dto: UpdateProductDto): Result<Db> {
    if id !in db.products then Err(NotFound)
    else
      var row := db.products[id];
      if dto.sku.Put? && dto.sku.value != row.sku && SkuTaken(db.products, dto.sku.value) then Err(Conflict)
      else if dto.categoryId.Put? && dto.categoryId.value !in db.categories then Err(BadRequest)
      else
        var updated := Product(dto.sku.On(row.sku), dto.categoryId.On(row.categoryId), dto.active.On(row.active));
        Ok(db.(products := db.products[id := updated]))
  }

  /** A hard delete takes the product's recipes and their ingredients with it:
      the database cascades. */
  function RemoveProduct(db: Db, id: Id): Result<Db> {
    if id !in db.products then Err(NotFound)
    else if HasTicketLines(db.ticketLines, id)
    then Ok(db.(products := db.products[id := db.products[id].(active := false)]))
    else
      var recipes := RecipesWithout(db.recipes, id);
      Ok(db.(
        products := db.products - {id},
        recipes := recipes,
        ingredients := IngredientsIn(db.ingredients, recipes.Keys)))
  }

  // ---------- suppliers ----------

  predicate SupplierCodeTaken(suppliers: map<Id, Supplier>, code: string) {
    exists k :: k in suppliers && suppliers[k].code == code
  }

  predicate HasItems(items: map<Id, Item>, supplier: Id) {
    exists k :: k in items && items[k].supplierId == Some(supplier)
  }

  function CreateSupplier(db: Db, code: string, active: bool): Result<Db> {
    if SupplierCodeTaken(db.suppliers, code) then Err(Conflict)
    else Ok(db.(suppliers := db.suppliers[db.next := Supplier(code, active)], next := db.next + 1))
  }

  function UpdateSupplier(db: Db, id: Id, dto: UpdateSupplierDto): Result<Db> {
    if id !in db.suppliers then Err(NotFound)
    else
      var row := db.suppliers[id];
      if dto.code.Put? && dto.code.value != row.code && SupplierCodeTaken(db.suppliers, dto.code.value)
      then Err(Conflict)
      else Ok(db.(suppliers := db.suppliers[id := Supplier(dto.code.On(row.code), dto.active.On(row.active))]))
  }

  function RemoveSupplier(db: Db, id: Id): Result<Db> {
    if id !in db.suppliers then Err(NotFound)
    else if HasItems(db.items, id)
    then Ok(db.(suppliers := db.suppliers[id := db.suppliers[id].(active := false)]))
    else Ok(db.(suppliers := db.suppliers - {id}))
  }

  // ---------- inventory items ----------

  predicate ItemCodeTaken(items: map<Id, Item>, code: string) {
    exists k :: k in items && items[k].code == code
  }

  predicate UsedInRecipes(ingredients: map<Id, Ingredient>, item: Id) {
    exists k :: k in ingredients && ingredients[k].inventoryItemId == item
  }

  predicate HasMovements(movements: map<Id, Id>, item: Id) {
    exists k :: k in movements && movements[k] == item
  }

  /** The supplier an item ends up with. */
  function SupplierAfter(ref: SupplierRef, old': Option<Id>): Option<Id> {
    match ref
    case Absent => old'
    case Null => None
    case Blank => None
    case To(id) => Some(id)
  }

  /** An id that does not exist is refused by the service; an empty string passes
      its check, being falsy, and is refused by the foreign key. */
  function SupplierRefused(db: Db, ref: SupplierRef): Option<Error> {
    match ref
    case To(id) => if id in db.suppliers then None else Some(BadRequest)
    case Blank => Some(ForeignKey)
    case _ => None
  }

  function CreateItem(db: Db, code: string, ref: SupplierRef): Result<Db> {
    if ItemCodeTaken(db.items, code) then Err(Conflict)
    else if SupplierRefused(db, ref).Some? then Err(SupplierRefused(db, ref).value)
    else Ok(db.(items := db.items[db.next := Item(code, SupplierAfter(ref, None), true)], next := db.next + 1))
  }

  function UpdateItem(db: Db, id: Id, dto: UpdateItemDto): Result<Db> {
    if id !in db.items then Err(NotFound)
    else
      var row := db.items[id];
      if dto.code.Put? && dto.code.value != row.code && ItemCodeTaken(db.items, dto.code.value) then Err(Conflict)
      else if SupplierRefused(db, dto.supplier).Some? then Err(SupplierRefused(db, dto.supplier).value)
      else
        var supplierId := SupplierAfter(dto.supplier, row.supplierId);
        var updated := Item(dto.code.On(row.code), supplierId, dto.active.On(row.active));
        Ok(db.(items := db.items[id := updated]))
  }

  function RemoveItem(db: Db, id: Id): Result<Db> {
    if id !in db.items then Err(NotFound)
    else if UsedInRecipes(db.ingredients, id) || HasMovements(db.movements, id)
    then Ok(db.(items := db.items[id := db.items[id].(active := false)]))
    else Ok(db.(items := db.items - {id}))
  }

  // ---------- recipes ----------

  function ItemIds(dtos: seq<IngredientDto>): (ids: seq<Id>)
    ensures |ids| == |dtos|
  {
    seq(|dtos|, i requires 0 <= i < |dtos| => dtos[i].inventoryItemId)
  }

  predicate RefusedIngredients(items: map<Id, Item>, dtos: Option<seq<IngredientDto>>) {
    dtos.Some? && |dtos.value| > 0 && !AllFound(items.Keys, ItemIds(dtos.value))
  }

  function NewIngredient(recipe: Id, first: Id, dtos: seq<IngredientDto>, k: Id): Ingredient
    requires first <= k < first + |dtos|
  {
    Ingredient(recipe, dtos[k - first].inventoryItemId, dtos[k - first].quantity)
  }

  function NewIngredients(recipe: Id, first: Id, dtos: seq<IngredientDto>): map<Id, Ingredient> {
    map k: Id | first <= k < first + |dtos| :: NewIngredient(recipe, first, dtos, k)
  }

  function IngredientsOfOthers(ingredients: map<Id, Ingredient>, recipe: Id): map<Id, Ingredient> {
    map k | k in ingredients && ingredients[k].recipeId != recipe :: ingredients[k]
  }

  function CreateRecipe(db: Db, productId: Id, ingredients: Option<seq<IngredientDto>>): Result<Db> {
    if productId !in db.products then Err(BadRequest)
    else if RefusedIngredients(db.items, ingredients) then Err(BadRequest)
    else
      var dtos := ingredients.GetOr([]);
      Ok(db.(
        recipes := db.recipes[db.next := Recipe(productId, true)],
        ingredients := db.ingredients + NewIngredients(db.next, db.next + 1, dtos),
        next := db.next + 1 + |dtos|))
  }

  function UpdateRecipe(db: Db, id: Id, dto: UpdateRecipeDto): Result<Db> {
    if id !in db.recipes then Err(NotFound)
    else if dto.productId.Put? && dto.productId.value !in db.products then Err(BadRequest)
    else if RefusedIngredients(db.items, dto.ingredients) then Err(BadRequest)
    else
      var row := db.recipes[id];
      var dtos := dto.ingredients.GetOr([]);
      var kept := if |dtos| > 0 then IngredientsOfOthers(db.ingredients, id) else db.ingredients;
      Ok(db.(
        recipes := db.recipes[id := Recipe(dto.productId.On(row.productId), dto.active.On(row.active))],
        ingredients := kept + NewIngredients(id, db.next, dtos),
        next := db.next + |dtos|))
  }

  function RemoveRecipe(db: Db, id: Id): Result<Db> {
    if id !in db.recipes then Err(NotFound)
    else Ok(db.(ingredients := IngredientsOfOthers(db.ingredients, id), recipes := db.recipes - {id}))
  }

  // ---------- what other modules add ----------

  /** A stock movement; whether the stock suffices is decided elsewhere. */
  function CreateMovement(db: Db, item: Id, enoughStock: bool): Result<Db> {
    if item !in db.items || !enoughStock then Err(BadRequest)
    else Ok(db.(movements := db.movements[db.next := item], next := db.next + 1))
  }

  function RemoveMovement(db: Db, id: Id): Result<Db> {
    if id !in db.movements then Err(NotFound)
    else Ok(db.(movements := db.movements - {id}))
  }

  /** A ticket line; its foreign key makes the product exist. */
  function AddTicketLine(db: Db, product: Id): Result<Db> {
    if product !in db.products then Err(ForeignKey)
    else Ok(db.(ticketLines := db.ticketLines[db.next := product], next := db.next + 1))
  }

  // ---------- runs ----------

  datatype CategoryOp =
    | CreateC(name: string, active: bool)
    | UpdateC(id: Id, categoryPatch: UpdateCategoryDto)
    | RemoveC(id: Id)

  datatype ProductOp =
    | CreateP(product: Product)
    | UpdateP(id: Id, productPatch: UpdateProductDto)
    | RemoveP(id: Id)

  datatype SupplierOp =
    | CreateS(code: string, active: bool)
    | UpdateS(id: Id, supplierPatch: UpdateSupplierDto)
    | RemoveS(id: Id)

  datatype ItemOp =
    | CreateI(code: string, ref: SupplierRef)
    | UpdateI(id: Id, itemPatch: UpdateItemDto)
    | RemoveI(id: Id)

  datatype RecipeOp =
    | CreateR(productId: Id, newIngredients: Option<seq<IngredientDto>>)
    | UpdateR(id: Id, recipePatch: UpdateRecipeDto)
    | RemoveR(id: Id)

  datatype OtherOp =
    | MoveStock(item: Id, enoughStock: bool)
    | UndoMovement(id: Id)
    | SellOnTicket(product: Id)

  datatype Op =
    | OnCategories(c: CategoryOp)
    | OnProducts(p: ProductOp)
    | OnSuppliers(s: SupplierOp)
    | OnItems(i: ItemOp)
    | OnRecipes(r: RecipeOp)
    | Elsewhere(o: OtherOp)

  function CallCategories(db: Db, op: CategoryOp): Result<Db> {
    match op
    case CreateC(name, active) => CreateCategory(db, name, active)
    case UpdateC(id, dto) => UpdateCategory(db, id, dto)
    case RemoveC(id) => RemoveCategory(db, id)
  }

  function CallProducts(db: Db, op: ProductOp): Result<Db> {
    match op
    case CreateP(p) => CreateProduct(db, p)
    case UpdateP(id, dto) => UpdateProduct(db, id, dto)
    case RemoveP(id) => RemoveProduct(db, id)
  }

  function CallSuppliers(db: Db, op: SupplierOp): Result<Db> {
    match op
    case CreateS(code, active) => CreateSupplier(db, code, active)
    case UpdateS(id, dto) => UpdateSupplier(db, id, dto)
    case RemoveS(id) => RemoveSupplier(db, id)
  }

  function CallItems(db: Db, op: ItemOp): Result<Db> {
    match op
    case CreateI(code, ref) => CreateItem(db, code, ref)
    case UpdateI(id, dto) => UpdateItem(db, id, dto)
    case RemoveI(id) => RemoveItem(db, id)
  }

  function CallRecipes(db: Db, op: RecipeOp): Result<Db> {
    match op
    case CreateR(product, dtos) => CreateRecipe(db, product, dtos)
    case UpdateR(id, dto) => UpdateRecipe(db, id, dto)
    case RemoveR(id) => RemoveRecipe(db, id)
  }

  function CallElsewhere(db: Db, op: OtherOp): Result<Db> {
    match op
    case MoveStock(item, enough) => CreateMovement(db, item, enough)
    case UndoMovement(id) => RemoveMovement(db, id)
    case SellOnTicket(product) => AddTicketLine(db, product)
  }

  function Call(db: Db, op: Op): Result<Db> {
    match op
    case OnCategories(c) => CallCategories(db, c)
    case OnProducts(p) => CallProducts(db, p)
    case OnSuppliers(s) => CallSuppliers(db, s)
    case OnItems(i) => CallItems(db, i)
    case OnRecipes(r) => CallRecipes(db, r)
    case Elsewhere(o) => CallElsewhere(db, o)
  }

  function Next(db: Db, op: Op): Db {
    After(db, Call(db, op))
  }

  function Run(db: Db, ops: seq<Op>): Db
    decreases |ops|
  {
    if ops == [] then db else Run(Next(db, ops[0]), ops[1..])
  }
}
