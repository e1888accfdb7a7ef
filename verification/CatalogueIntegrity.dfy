/** What every sequence of catalogue calls keeps true: no reference dangles, no
    code is used twice, and no recipe lists an item twice. */
module CatalogueIntegrity {
  import opened Wrappers
  import opened Existence
  import opened Catalogue
  import opened Text

  ghost predicate IdsGivenOut(db: Db) {
    && (forall k :: k in db.categories ==> k < db.next)
    && (forall k :: k in db.products ==> k < db.next)
    && (forall k :: k in db.suppliers ==> k < db.next)
    && (forall k :: k in db.items ==> k < db.next)
    && (forall k :: k in db.recipes ==> k < db.next)
    && (forall k :: k in db.ingredients ==> k < db.next)
    && (forall k :: k in db.movements ==> k < db.next)
    && (forall k :: k in db.ticketLines ==> k < db.next)
  }

  /** Every reference names a row that exists. */
  ghost predicate NoneDangling(db: Db) {
    && (forall k :: k in db.products ==> db.products[k].categoryId in db.categories)
    && (forall k :: k in db.items && db.items[k].supplierId.Some? ==> db.items[k].supplierId.value in db.suppliers)
    && (forall k :: k in db.recipes ==> db.recipes[k].productId in db.products)
    && (forall k :: k in db.ingredients ==>
          db.ingredients[k].recipeId in db.recipes && db.ingredients[k].inventoryItemId in db.items)
    && (forall k :: k in db.movements ==> db.movements[k] in db.items)
    && (forall k :: k in db.ticketLines ==> db.ticketLines[k] in db.products)
  }

  ghost predicate NamesUnique(categories: map<Id, Category>) {
    forall j, k :: j in categories && k in categories && j != k ==> !SameName(categories[j].name, categories[k].name)
  }

  ghost predicate SkusUnique(products: map<Id, Product>) {
    forall j, k :: j in products && k in products && j != k ==> products[j].sku != products[k].sku
  }

  ghost predicate SupplierCodesUnique(suppliers: map<Id, Supplier>) {
    forall j, k :: j in suppliers && k in suppliers && j != k ==> suppliers[j].code != suppliers[k].code
  }

  ghost predicate ItemCodesUnique(items: map<Id, Item>) {
    forall j, k :: j in items && k in items && j != k ==> items[j].code != items[k].code
  }

  /** Names, SKUs and codes identify their rows. */
  ghost predicate CodesUnique(db: Db) {
    && NamesUnique(db.categories)
    && SkusUnique(db.products)
    && SupplierCodesUnique(db.suppliers)
    && ItemCodesUnique(db.items)
  }

  /** The ingredients of one recipe name pairwise distinct items. */
  ghost predicate DistinctItems(ingredients: map<Id, Ingredient>) {
    forall j, k :: j in ingredients && k in ingredients && j != k
                   && ingredients[j].recipeId == ingredients[k].recipeId
                   ==> ingredients[j].inventoryItemId != ingredients[k].inventoryItemId
  }

  lemma AcceptedIngredients(items: map<Id, Item>, ingredients: Option<seq<IngredientDto>>)
    requires !RefusedIngredients(items, ingredients)
    ensures var dtos := ingredients.GetOr([]);
            && (forall i :: 0 <= i < |dtos| ==> dtos[i].inventoryItemId in items)
            && (forall i, j :: 0 <= i < j < |dtos| ==> dtos[i].inventoryItemId != dtos[j].inventoryItemId)
  {
    var dtos := ingredients.GetOr([]);
    if |dtos| > 0 {
      AcceptedIds(items.Keys, ItemIds(dtos));
      assert forall i :: 0 <= i < |dtos| ==> ItemIds(dtos)[i] == dtos[i].inventoryItemId;
    }
  }

  // ---------- references ----------

  lemma RemoveCategoryNoneDangling(db: Db, id: Id)
    requires NoneDangling(db)
    ensures NoneDangling(After(db, RemoveCategory(db, id)))
  {
    var after := After(db, RemoveCategory(db, id));
    if HasProducts(db.products, id) {
      assert after.categories.Keys == db.categories.Keys;
    } else {
      assert after.categories == db.categories - {id};
    }
  }

  lemma RemoveSupplierNoneDangling(db: Db, id: Id)
    requires NoneDangling(db)
    ensures NoneDangling(After(db, RemoveSupplier(db, id)))
  {
    var after := After(db, RemoveSupplier(db, id));
    if HasItems(db.items, id) {
      assert after.suppliers.Keys == db.suppliers.Keys;
    } else {
      assert after.suppliers == db.suppliers - {id};
    }
  }

  lemma RemoveItemNoneDangling(db: Db, id: Id)
    requires NoneDangling(db)
    ensures NoneDangling(After(db, RemoveItem(db, id)))
  {
    var after := After(db, RemoveItem(db, id));
    if UsedInRecipes(db.ingredients, id) || HasMovements(db.movements, id) {
      assert after.items.Keys == db.items.Keys;
    } else {
      assert after.items == db.items - {id};
    }
  }

  lemma RemoveProductNoneDangling(db: Db, id: Id)
    requires NoneDangling(db)
    ensures NoneDangling(After(db, RemoveProduct(db, id)))
  {
    var after := After(db, RemoveProduct(db, id));
    if HasTicketLines(db.ticketLines, id) {
      assert after.products.Keys == db.products.Keys;
    } else {
      assert after.products == db.products - {id};
    }
  }

  lemma CreateRecipeNoneDangling(db: Db, product: Id, dtos: Option<seq<IngredientDto>>)
    requires NoneDangling(db)
    ensures NoneDangling(After(db, CreateRecipe(db, product, dtos)))
  {
    if !RefusedIngredients(db.items, dtos) {
      AcceptedIngredients(db.items, dtos);
    }
  }

  /** An update that leaves the ingredients as they are. */
  lemma PatchRecipeNoneDangling(db: Db, id: Id, dto: UpdateRecipeDto)
    requires NoneDangling(db) && dto.ingredients.GetOr([]) == []
    ensures NoneDangling(After(db, UpdateRecipe(db, id, dto)))
  {
    var after := After(db, UpdateRecipe(db, id, dto));
    assert after.ingredients == db.ingredients;
  }

  /** An update that replaces the ingredients. */
  lemma ReplaceIngredientsNoneDangling(db: Db, id: Id, dto: UpdateRecipeDto)
    requires NoneDangling(db) && UpdateRecipe(db, id, dto).Ok? && dto.ingredients.GetOr([]) != []
    ensures NoneDangling(UpdateRecipe(db, id, dto).value)
  {
    AcceptedIngredients(db.items, dto.ingredients);
    hide AllFound;
  }

  lemma UpdateRecipeNoneDangling(db: Db, id: Id, dto: UpdateRecipeDto)
    requires NoneDangling(db)
    ensures NoneDangling(After(db, UpdateRecipe(db, id, dto)))
  {
    hide NoneDangling, UpdateRecipe;
    if dto.ingredients.GetOr([]) == [] {
      PatchRecipeNoneDangling(db, id, dto);
    } else if UpdateRecipe(db, id, dto).Ok? {
      ReplaceIngredientsNoneDangling(db, id, dto);
    }
  }

  lemma CreateCategoryNoneDangling(db: Db, name: string, active: bool)
    requires NoneDangling(db)
    ensures NoneDangling(After(db, CreateCategory(db, name, active)))
  {
  }

  lemma UpdateCategoryNoneDangling(db: Db, id: Id, dto: UpdateCategoryDto)
    requires NoneDangling(db)
    ensures NoneDangling(After(db, UpdateCategory(db, id, dto)))
  {
  }

  lemma CategoriesNoneDangling(db: Db, op: CategoryOp)
    requires NoneDangling(db)
    ensures NoneDangling(After(db, CallCategories(db, op)))
  {
    match op
    case CreateC(name, active) => CreateCategoryNoneDangling(db, name, active);
    case UpdateC(id, dto) => UpdateCategoryNoneDangling(db, id, dto);
    case RemoveC(id) => RemoveCategoryNoneDangling(db, id);
  }

  lemma CreateProductNoneDangling(db: Db, dto: Product)
    requires NoneDangling(db)
    ensures NoneDangling(After(db, CreateProduct(db, dto)))
  {
  }

  lemma UpdateProductNoneDangling(db: Db, id: Id, dto: UpdateProductDto)
    requires NoneDangling(db)
    ensures NoneDangling(After(db, UpdateProduct(db, id, dto)))
  {
  }

  lemma ProductsNoneDangling(db: Db, op: ProductOp)
    requires NoneDangling(db)
    ensures NoneDangling(After(db, CallProducts(db, op)))
  {
    match op
    case CreateP(dto) => CreateProductNoneDangling(db, dto);
    case UpdateP(id, dto) => UpdateProductNoneDangling(db, id, dto);
    case RemoveP(id) => RemoveProductNoneDangling(db, id);
  }

  lemma CreateSupplierNoneDangling(db: Db, code: string, active: bool)
    requires NoneDangling(db)
    ensures NoneDangling(After(db, CreateSupplier(db, code, active)))
  {
  }

  lemma UpdateSupplierNoneDangling(db: Db, id: Id, dto: UpdateSupplierDto)
    requires NoneDangling(db)
    ensures NoneDangling(After(db, UpdateSupplier(db, id, dto)))
  {
  }

  lemma SuppliersNoneDangling(db: Db, op: SupplierOp)
    requires NoneDangling(db)
    ensures NoneDangling(After(db, CallSuppliers(db, op)))
  {
    match op
    case CreateS(code, active) => CreateSupplierNoneDangling(db, code, active);
    case UpdateS(id, dto) => UpdateSupplierNoneDangling(db, id, dto);
    case RemoveS(id) => RemoveSupplierNoneDangling(db, id);
  }

  lemma CreateItemNoneDangling(db: Db, code: string, ref: SupplierRef)
    requires NoneDangling(db)
    ensures NoneDangling(After(db, CreateItem(db, code, ref)))
  {
  }

  lemma UpdateItemNoneDangling(db: Db, id: Id, dto: UpdateItemDto)
    requires NoneDangling(db)
    ensures NoneDangling(After(db, UpdateItem(db, id, dto)))
  {
  }

  lemma ItemsNoneDangling(db: Db, op: ItemOp)
    requires NoneDangling(db)
    ensures NoneDangling(After(db, CallItems(db, op)))
  {
    match op
    case CreateI(code, ref) => CreateItemNoneDangling(db, code, ref);
    case UpdateI(id, dto) => UpdateItemNoneDangling(db, id, dto);
    case RemoveI(id) => RemoveItemNoneDangling(db, id);
  }

  lemma RecipesNoneDangling(db: Db, op: RecipeOp)
    requires NoneDangling(db)
    ensures NoneDangling(After(db, CallRecipes(db, op)))
  {
    match op
    case CreateR(product, dtos) => CreateRecipeNoneDangling(db, product, dtos);
    case UpdateR(id, dto) => UpdateRecipeNoneDangling(db, id, dto);
    case _ =>
  }

  lemma ElsewhereNoneDangling(db: Db, op: OtherOp)
    requires NoneDangling(db)
    ensures NoneDangling(After(db, CallElsewhere(db, op)))
  {
  }

  lemma StepNoneDangling(db: Db, op: Op)
    requires NoneDangling(db)
    ensures NoneDangling(Next(db, op))
  {
    match op
    case OnCategories(c) => CategoriesNoneDangling(db, c);
    case OnProducts(p) => ProductsNoneDangling(db, p);
    case OnSuppliers(s) => SuppliersNoneDangling(db, s);
    case OnItems(i) => ItemsNoneDangling(db, i);
    case OnRecipes(r) => RecipesNoneDangling(db, r);
    case Elsewhere(o) => ElsewhereNoneDangling(db, o);
  }

  /** Over every run of creates, updates and removes, every product's category,
      every item's supplier, every recipe's product, and every ingredient's item
      and recipe exist. */
  lemma {:induction false} NothingDangles(db: Db, ops: seq<Op>)
    requires NoneDangling(db)
    ensures NoneDangling(Run(db, ops))
    decreases |ops|
  {
    if ops != [] {
      StepNoneDangling(db, ops[0]);
      NothingDangles(Next(db, ops[0]), ops[1..]);
    }
  }

  // ---------- the choice between soft and hard delete ----------

  /** A hard delete of a category is safe exactly when the service chooses it. */
  lemma CategoryDeletedExactlyWhenSafe(db: Db, id: Id)
    requires NoneDangling(db) && id in db.categories
    ensures id !in After(db, RemoveCategory(db, id)).categories
            <==> NoneDangling(db.(categories := db.categories - {id}))
  {
    RemoveCategoryNoneDangling(db, id);
  }

  lemma SupplierDeletedExactlyWhenSafe(db: Db, id: Id)
    requires NoneDangling(db) && id in db.suppliers
    ensures id !in After(db, RemoveSupplier(db, id)).suppliers
            <==> NoneDangling(db.(suppliers := db.suppliers - {id}))
  {
    RemoveSupplierNoneDangling(db, id);
  }

  lemma ItemDeletedExactlyWhenSafe(db: Db, id: Id)
    requires NoneDangling(db) && id in db.items
    ensures id !in After(db, RemoveItem(db, id)).items
            <==> NoneDangling(db.(items := db.items - {id}))
  {
    RemoveItemNoneDangling(db, id);
  }

  // ---------- codes and ingredients ----------

  /** Ids in use were given out earlier, and identify nothing twice. */
  ghost predicate Keyed(db: Db) {
    IdsGivenOut(db) && CodesUnique(db)
  }

  lemma CreateCategoryKeyed(db: Db, name: string, active: bool)
    requires Keyed(db)
    ensures var after := After(db, CreateCategory(db, name, active));
            Keyed(after) && after.ingredients == db.ingredients
  {
    hide SkusUnique, SupplierCodesUnique, ItemCodesUnique, Lower;
  }

  lemma UpdateCategoryKeyed(db: Db, id: Id, dto: UpdateCategoryDto)
    requires Keyed(db)
    ensures var after := After(db, UpdateCategory(db, id, dto)); Keyed(after) && after.ingredients == db.ingredients
  {
    hide SkusUnique, SupplierCodesUnique, ItemCodesUnique, Lower;
  }

  /** Rows with the same names, or fewer. */
  lemma FewerCategoriesKeyed(db: Db, rows: map<Id, Category>)
    requires Keyed(db) && rows.Keys <= db.categories.Keys
    requires forall k :: k in rows ==> rows[k].name == db.categories[k].name
    ensures Keyed(db.(categories := rows))
  {
    hide SkusUnique, SupplierCodesUnique, ItemCodesUnique, Lower;
  }

  lemma RemoveCategoryKeyed(db: Db, id: Id)
    requires Keyed(db)
    ensures var after := After(db, RemoveCategory(db, id)); Keyed(after) && after.ingredients == db.ingredients
  {
    hide Keyed;
    if id in db.categories {
      if HasProducts(db.products, id) {
        FewerCategoriesKeyed(db, db.categories[id := db.categories[id].(active := false)]);
      } else {
        FewerCategoriesKeyed(db, db.categories - {id});
      }
    }
  }

  lemma CategoriesKeyed(db: Db, op: CategoryOp)
    requires Keyed(db)
    ensures var after := After(db, CallCategories(db, op)); Keyed(after) && after.ingredients == db.ingredients
  {
    match op
    case CreateC(name, active) => CreateCategoryKeyed(db, name, active);
    case UpdateC(id, dto) => UpdateCategoryKeyed(db, id, dto);
    case RemoveC(id) => RemoveCategoryKeyed(db, id);
  }

  lemma CreateProductKeyed(db: Db, dto: Product)
    requires Keyed(db)
    ensures var after := After(db, CreateProduct(db, dto)); Keyed(after) && after.ingredients == db.ingredients
  {
    hide NamesUnique, SupplierCodesUnique, ItemCodesUnique;
  }

  lemma UpdateProductKeyed(db: Db, id: Id, dto: UpdateProductDto)
    requires Keyed(db)
    ensures var after := After(db, UpdateProduct(db, id, dto)); Keyed(after) && after.ingredients == db.ingredients
  {
    hide NamesUnique, SupplierCodesUnique, ItemCodesUnique;
  }

  /** Rows with the same SKUs, or fewer, and fewer recipes and ingredients. */
  lemma FewerProductsKeyed(db: Db, rows: map<Id, Product>, recipes: map<Id, Recipe>, ingredients: map<Id, Ingredient>)
    requires Keyed(db) && rows.Keys <= db.products.Keys
    requires recipes.Keys <= db.recipes.Keys && ingredients.Keys <= db.ingredients.Keys
    requires forall k :: k in rows ==> rows[k].sku == db.products[k].sku
    ensures Keyed(db.(products := rows, recipes := recipes, ingredients := ingredients))
  {
    hide NamesUnique, SupplierCodesUnique, ItemCodesUnique;
  }

  lemma RemoveProductKeyed(db: Db, id: Id)
    requires Keyed(db)
    ensures Keyed(After(db, RemoveProduct(db, id)))
  {
    hide Keyed;
    if id in db.products {
      if HasTicketLines(db.ticketLines, id) {
        var rows := db.products[id := db.products[id].(active := false)];
        FewerProductsKeyed(db, rows, db.recipes, db.ingredients);
      } else {
        var recipes := RecipesWithout(db.recipes, id);
        FewerProductsKeyed(db, db.products - {id}, recipes, IngredientsIn(db.ingredients, recipes.Keys));
      }
    }
  }

  lemma ProductsKeyed(db: Db, op: ProductOp)
    requires Keyed(db)
    ensures var after := After(db, CallProducts(db, op));
            Keyed(after) && (op.RemoveP? || after.ingredients == db.ingredients)
  {
    match op
    case CreateP(dto) => CreateProductKeyed(db, dto);
    case UpdateP(id, dto) => UpdateProductKeyed(db, id, dto);
    case RemoveP(id) => RemoveProductKeyed(db, id);
  }

  lemma CreateSupplierKeyed(db: Db, code: string, active: bool)
    requires Keyed(db)
    ensures var after := After(db, CreateSupplier(db, code, active));
            Keyed(after) && after.ingredients == db.ingredients
  {
    hide NamesUnique, SkusUnique, ItemCodesUnique;
  }

  lemma UpdateSupplierKeyed(db: Db, id: Id, dto: UpdateSupplierDto)
    requires Keyed(db)
    ensures var after := After(db, UpdateSupplier(db, id, dto)); Keyed(after) && after.ingredients == db.ingredients
  {
    hide NamesUnique, SkusUnique, ItemCodesUnique;
  }

  /** Rows with the same codes, or fewer. */
  lemma FewerSuppliersKeyed(db: Db, rows: map<Id, Supplier>)
    requires Keyed(db) && rows.Keys <= db.suppliers.Keys
    requires forall k :: k in rows ==> rows[k].code == db.suppliers[k].code
    ensures Keyed(db.(suppliers := rows))
  {
    hide NamesUnique, SkusUnique, ItemCodesUnique;
  }

  lemma RemoveSupplierKeyed(db: Db, id: Id)
    requires Keyed(db)
    ensures var after := After(db, RemoveSupplier(db, id)); Keyed(after) && after.ingredients == db.ingredients
  {
    hide Keyed;
    if id in db.suppliers {
      if HasItems(db.items, id) {
        FewerSuppliersKeyed(db, db.suppliers[id := db.suppliers[id].(active := false)]);
      } else {
        FewerSuppliersKeyed(db, db.suppliers - {id});
      }
    }
  }

  lemma SuppliersKeyed(db: Db, op: SupplierOp)
    requires Keyed(db)
    ensures var after := After(db, CallSuppliers(db, op)); Keyed(after) && after.ingredients == db.ingredients
  {
    match op
    case CreateS(code, active) => CreateSupplierKeyed(db, code, active);
    case UpdateS(id, dto) => UpdateSupplierKeyed(db, id, dto);
    case RemoveS(id) => RemoveSupplierKeyed(db, id);
  }

  lemma CreateItemKeyed(db: Db, code: string, ref: SupplierRef)
    requires Keyed(db)
    ensures var after := After(db, CreateItem(db, code, ref)); Keyed(after) && after.ingredients == db.ingredients
  {
    hide NamesUnique, SkusUnique, SupplierCodesUnique;
  }

  lemma UpdateItemKeyed(db: Db, id: Id, dto: UpdateItemDto)
    requires Keyed(db)
    ensures var after := After(db, UpdateItem(db, id, dto)); Keyed(after) && after.ingredients == db.ingredients
  {
    hide NamesUnique, SkusUnique, SupplierCodesUnique;
  }

  /** Rows with the same codes, or fewer. */
  lemma FewerItemsKeyed(db: Db, rows: map<Id, Item>)
    requires Keyed(db) && rows.Keys <= db.items.Keys
    requires forall k :: k in rows ==> rows[k].code == db.items[k].code
    ensures Keyed(db.(items := rows))
  {
    hide NamesUnique, SkusUnique, SupplierCodesUnique;
  }

  lemma RemoveItemKeyed(db: Db, id: Id)
    requires Keyed(db)
    ensures var after := After(db, RemoveItem(db, id)); Keyed(after) && after.ingredients == db.ingredients
  {
    hide Keyed;
    if id in db.items {
      if UsedInRecipes(db.ingredients, id) || HasMovements(db.movements, id) {
        FewerItemsKeyed(db, db.items[id := db.items[id].(active := false)]);
      } else {
        FewerItemsKeyed(db, db.items - {id});
      }
    }
  }

  lemma ItemsKeyed(db: Db, op: ItemOp)
    requires Keyed(db)
    ensures var after := After(db, CallItems(db, op)); Keyed(after) && after.ingredients == db.ingredients
  {
    match op
    case CreateI(code, ref) => CreateItemKeyed(db, code, ref);
    case UpdateI(id, dto) => UpdateItemKeyed(db, id, dto);
    case RemoveI(id) => RemoveItemKeyed(db, id);
  }

  lemma RecipesKeyed(db: Db, op: RecipeOp)
    requires Keyed(db)
    ensures Keyed(After(db, CallRecipes(db, op)))
  {
  }

  lemma ElsewhereKeyed(db: Db, op: OtherOp)
    requires Keyed(db)
    ensures var after := After(db, CallElsewhere(db, op)); Keyed(after) && after.ingredients == db.ingredients
  {
  }

  lemma StepKeyed(db: Db, op: Op)
    requires Keyed(db)
    ensures Keyed(Next(db, op))
    ensures op.OnRecipes? || (op.OnProducts? && op.p.RemoveP?) || Next(db, op).ingredients == db.ingredients
  {
    match op
    case OnCategories(c) => CategoriesKeyed(db, c);
    case OnProducts(p) => ProductsKeyed(db, p);
    case OnSuppliers(s) => SuppliersKeyed(db, s);
    case OnItems(i) => ItemsKeyed(db, i);
    case OnRecipes(r) => RecipesKeyed(db, r);
    case Elsewhere(o) => ElsewhereKeyed(db, o);
  }

  lemma CreateRecipeDistinctItems(db: Db, product: Id, dtos: Option<seq<IngredientDto>>)
    requires IdsGivenOut(db) && NoneDangling(db) && DistinctItems(db.ingredients)
    ensures DistinctItems(After(db, CreateRecipe(db, product, dtos)).ingredients)
  {
    if !RefusedIngredients(db.items, dtos) {
      AcceptedIngredients(db.items, dtos);
    }
  }

  lemma UpdateRecipeDistinctItems(db: Db, id: Id, dto: UpdateRecipeDto)
    requires IdsGivenOut(db) && DistinctItems(db.ingredients)
    ensures DistinctItems(After(db, UpdateRecipe(db, id, dto)).ingredients)
  {
    if !RefusedIngredients(db.items, dto.ingredients) {
      AcceptedIngredients(db.items, dto.ingredients);
    }
  }

  lemma RecipesKeepDistinctItems(db: Db, op: RecipeOp)
    requires IdsGivenOut(db) && NoneDangling(db) && DistinctItems(db.ingredients)
    ensures DistinctItems(After(db, CallRecipes(db, op)).ingredients)
  {
    match op
    case CreateR(product, dtos) => CreateRecipeDistinctItems(db, product, dtos);
    case UpdateR(id, dto) => UpdateRecipeDistinctItems(db, id, dto);
    case RemoveR(_) =>
  }

  lemma RemoveProductDistinctItems(db: Db, id: Id)
    requires DistinctItems(db.ingredients)
    ensures DistinctItems(After(db, RemoveProduct(db, id)).ingredients)
  {
  }

  lemma StepDistinctItems(db: Db, op: Op)
    requires Keyed(db) && NoneDangling(db) && DistinctItems(db.ingredients)
    ensures DistinctItems(Next(db, op).ingredients)
  {
    if op.OnRecipes? {
      RecipesKeepDistinctItems(db, op.r);
    } else if op.OnProducts? && op.p.RemoveP? {
      RemoveProductDistinctItems(db, op.p.id);
    } else {
      StepKeyed(db, op);
    }
  }

  /** Ids, names and codes identify their rows, nothing dangles, and each recipe names
      distinct items. */
  ghost predicate Valid(db: Db) {
    Keyed(db) && NoneDangling(db) && DistinctItems(db.ingredients)
  }

  lemma StepValid(db: Db, op: Op)
    ensures Valid(db) ==> Valid(Next(db, op))
  {
    hide Keyed, NoneDangling, DistinctItems, Next;
    if Valid(db) {
      StepKeyed(db, op);
      StepNoneDangling(db, op);
      StepDistinctItems(db, op);
    }
  }

  lemma {:induction false} RunValid(db: Db, ops: seq<Op>)
    requires Valid(db)
    ensures Valid(Run(db, ops))
    decreases |ops|
  {
    hide Valid;
    if ops != [] {
      StepValid(db, ops[0]);
      RunValid(Next(db, ops[0]), ops[1..]);
    }
  }

  /** In every reachable catalogue nothing dangles, names and codes are unique, and
      each recipe names distinct items. */
  lemma ReachableCatalogue(ops: seq<Op>)
    ensures var db := Run(EMPTY_DB, ops);
            NoneDangling(db) && CodesUnique(db) && DistinctItems(db.ingredients)
  {
    RunValid(EMPTY_DB, ops);
  }
}
