/** The catalogue services, working step by step on the tables of one database
    client.  Each method is tied to the call it implements. */
module CatalogueServices {
  import opened Wrappers
  import opened Existence
  import opened Text
  import opened Catalogue
  import opened CatalogueIntegrity

  lemma SomeRow<T>(rows: set<T>)
    ensures |rows| > 0 <==> exists x :: x in rows
  {
    if |rows| > 0 {
      var x :| x in rows;
    }
  }

  // The rows that a relation count counts.

  function ProductsIn(products: map<Id, Product>, category: Id): (rows: set<Id>)
    ensures |rows| > 0 <==> HasProducts(products, category)
  {
    var rows := set k | k in products && products[k].categoryId == category;
    SomeRow(rows);
    assert forall k :: k in products && products[k].categoryId == category ==> k in rows;
    rows
  }

  function TicketLinesOf(ticketLines: map<Id, Id>, product: Id): (rows: set<Id>)
    ensures |rows| > 0 <==> HasTicketLines(ticketLines, product)
  {
    var rows := set k | k in ticketLines && ticketLines[k] == product;
    SomeRow(rows);
    assert forall k :: k in ticketLines && ticketLines[k] == product ==> k in rows;
    rows
  }

  function ItemsFrom(items: map<Id, Item>, supplier: Id): (rows: set<Id>)
    ensures |rows| > 0 <==> HasItems(items, supplier)
  {
    var rows := set k | k in items && items[k].supplierId == Some(supplier);
    SomeRow(rows);
    assert forall k :: k in items && items[k].supplierId == Some(supplier) ==> k in rows;
    rows
  }

  function IngredientsOfItem(ingredients: map<Id, Ingredient>, item: Id): (rows: set<Id>)
    ensures |rows| > 0 <==> UsedInRecipes(ingredients, item)
  {
    var rows := set k | k in ingredients && ingredients[k].inventoryItemId == item;
    SomeRow(rows);
    assert forall k :: k in ingredients && ingredients[k].inventoryItemId == item ==> k in rows;
    rows
  }

  function MovementsOf(movements: map<Id, Id>, item: Id): (rows: set<Id>)
    ensures |rows| > 0 <==> HasMovements(movements, item)
  {
    var rows := set k | k in movements && movements[k] == item;
    SomeRow(rows);
    assert forall k :: k in movements && movements[k] == item ==> k in rows;
    rows
  }

  lemma NoIngredients(recipe: Id, first: Id)
    ensures NewIngredients(recipe, first, []) == map[]
  {
  }

  lemma OneMoreIngredient(recipe: Id, first: Id, dtos: seq<IngredientDto>, i: nat)
    requires i < |dtos|
    ensures NewIngredients(recipe, first, dtos[..i + 1])
            == NewIngredients(recipe, first, dtos[..i])[first + i := NewIngredient(recipe, first, dtos, first + i)]
  {
  }

  /** The database client: the tables, updated in place. */
  class PrismaService {
    var categories: map<Id, Category>
    var products: map<Id, Product>
    var suppliers: map<Id, Supplier>
    var items: map<Id, Item>
    var recipes: map<Id, Recipe>
    var ingredients: map<Id, Ingredient>
    var movements: map<Id, Id>
    var ticketLines: map<Id, Id>
    var next: Id

    constructor ()
      ensures Snapshot() == EMPTY_DB
    {
      categories, products, suppliers, items := map[], map[], map[], map[];
      recipes, ingredients, movements, ticketLines, next := map[], map[], map[], map[], 0;
    }

    function Snapshot(): Db
      reads this
    {
      Db(categories, products, suppliers, items, recipes, ingredients, movements, ticketLines, next)
    }

    /** Inserts one ingredient row per entry, for one recipe. */
    method CreateIngredients(recipe: Id, dtos: seq<IngredientDto>)
      modifies this`ingredients, this`next
      ensures ingredients == old(ingredients) + NewIngredients(recipe, old(next), dtos)
      ensures next == old(next) + |dtos|
      ensures Writes(old(ingredients), ingredients, recipe, old(next), dtos)
    {
      hide Writes, NewIngredients;
      NewIngredientsWrite(ingredients, recipe, next, dtos);
      NoIngredients(recipe, next);
      assert dtos[..0] == [];
      var i := 0;
      while i < |dtos|
        invariant 0 <= i <= |dtos|
        invariant next == old(next) + i
        invariant ingredients == old(ingredients) + NewIngredients(recipe, old(next), dtos[..i])
      {
        OneMoreIngredient(recipe, old(next), dtos, i);
        ingredients := ingredients[next := Ingredient(recipe, dtos[i].inventoryItemId, dtos[i].quantity)];
        next := next + 1;
        i := i + 1;
      }
      assert dtos[..|dtos|] == dtos;
    }

    /** The nested create of a recipe: its row, and its ingredient rows. */
    method CreateRecipeRow(productId: Id, dtos: seq<IngredientDto>) returns (id: Id)
      modifies this`recipes, this`ingredients, this`next
      ensures id == old(next) && next == id + 1 + |dtos|
      ensures recipes == old(recipes)[id := Recipe(productId, true)]
      ensures ingredients == old(ingredients) + NewIngredients(id, id + 1, dtos)
      ensures Writes(old(ingredients), ingredients, id, id + 1, dtos)
    {
      id := next;
      recipes := recipes[id := Recipe(productId, true)];
      next := id + 1;
      CreateIngredients(id, dtos);
    }
  }

  /** Ingredients that may be written: each names an existing item, and no two the same. */
  ghost predicate Accepted(items: map<Id, Item>, dtos: seq<IngredientDto>) {
    && (forall i :: 0 <= i < |dtos| ==> dtos[i].inventoryItemId in items)
    && (forall i, j :: 0 <= i < j < |dtos| ==> dtos[i].inventoryItemId != dtos[j].inventoryItemId)
  }

  lemma AcceptedExactly(items: map<Id, Item>, ingredients: Option<seq<IngredientDto>>)
    ensures Accepted(items, ingredients.GetOr([])) <==> !RefusedIngredients(items, ingredients)
  {
    if ingredients.Some? {
      var ids := ItemIds(ingredients.value);
      AcceptedIds(items.Keys, ids);
      assert forall i :: 0 <= i < |ids| ==> ids[i] == ingredients.value[i].inventoryItemId;
    }
  }

  /** The rows are those there were, and one for each entry, under ids from `first` on. */
  ghost predicate Writes(before: map<Id, Ingredient>, after: map<Id, Ingredient>, recipe: Id, first: Id,
                         dtos: seq<IngredientDto>)
  {
    && (forall k :: k in after <==> k in before || first <= k < first + |dtos|)
    && (forall k :: k in before && !(first <= k < first + |dtos|) ==> after[k] == before[k])
    && (forall i :: 0 <= i < |dtos| ==>
          after[first + i] == Ingredient(recipe, dtos[i].inventoryItemId, dtos[i].quantity))
  }

  lemma NewIngredientsWrite(before: map<Id, Ingredient>, recipe: Id, first: Id, dtos: seq<IngredientDto>)
    ensures Writes(before, before + NewIngredients(recipe, first, dtos), recipe, first, dtos)
  {
  }

  class CategoriesService {
    const prisma: PrismaService

    constructor (prisma: PrismaService)
      ensures this.prisma == prisma
    {
      this.prisma := prisma;
    }

    method Create(name: string, active: bool) returns (r: Result<Id>)
      modifies prisma
      ensures var call := CreateCategory(old(prisma.Snapshot()), name, active);
              Reports(r, call) && prisma.Snapshot() == After(old(prisma.Snapshot()), call)
      ensures Valid(old(prisma.Snapshot())) ==> Valid(prisma.Snapshot())
      ensures r.Ok? ==> r.value == old(prisma.next)
      ensures r == Err(BadRequest) <==>
                exists k :: k in old(prisma.categories) && Lower(old(prisma.categories)[k].name) == Lower(name)
      ensures var (before, after) := (old(prisma.Snapshot()), prisma.Snapshot());
              && (r != Err(BadRequest) ==> r == Ok(before.next))
              && (r.Err? ==> after == before)
              && (r.Ok? ==> after == before.(
                    categories := before.categories[r.value := Category(name, active)], next := after.next))
    {
      hide Valid;
      StepValid(prisma.Snapshot(), OnCategories(CreateC(name, active)));
      if NameTaken(prisma.categories, name) {
        ghost var k :| k in prisma.categories && SameName(prisma.categories[k].name, name);
        return Err(BadRequest);
      }
      prisma.categories := prisma.categories[prisma.next := Category(name, active)];
      r := Ok(prisma.next);
      prisma.next := prisma.next + 1;
    }

    method Update(id: Id, dto: UpdateCategoryDto) returns (r: Result<()>)
      modifies prisma
      ensures var call := UpdateCategory(old(prisma.Snapshot()), id, dto);
              Reports(r, call) && prisma.Snapshot() == After(old(prisma.Snapshot()), call)
      ensures Valid(old(prisma.Snapshot())) ==> Valid(prisma.Snapshot())
      ensures var (before, after) := (old(prisma.Snapshot()), prisma.Snapshot());
              && (r.Ok? <==> && id in before.categories
                             && (dto.name.Put? && dto.name.value != before.categories[id].name ==>
                                   forall k :: k in before.categories && k != id ==>
                                     Lower(before.categories[k].name) != Lower(dto.name.value)))
              && (r.Err? ==> r.error == (if id in before.categories then BadRequest else NotFound) && after == before)
              && (r.Ok? ==>
                    && id in after.categories
                    && after == before.(categories := before.categories[id := after.categories[id]])
                    && Patched(dto.name, before.categories[id].name, after.categories[id].name)
                    && Patched(dto.active, before.categories[id].active, after.categories[id].active))
    {
      hide Valid;
      StepValid(prisma.Snapshot(), OnCategories(UpdateC(id, dto)));
      if id !in prisma.categories {
        return Err(NotFound);
      }
      var category := prisma.categories[id];
      if dto.name.Put? && dto.name.value != category.name {
        if NameTakenByOther(prisma.categories, dto.name.value, id) {
          ghost var k :| k in prisma.categories && k != id && SameName(prisma.categories[k].name, dto.name.value);
          return Err(BadRequest);
        }
      }
      var updated := Category(dto.name.On(category.name), dto.active.On(category.active));
      prisma.categories := prisma.categories[id := updated];
      r := Ok(());
    }

    method Remove(id: Id) returns (r: Result<()>)
      modifies prisma
      ensures var call := RemoveCategory(old(prisma.Snapshot()), id);
              Reports(r, call) && prisma.Snapshot() == After(old(prisma.Snapshot()), call)
      ensures Valid(old(prisma.Snapshot())) ==> Valid(prisma.Snapshot())
      ensures var (before, after) := (old(prisma.Snapshot()), prisma.Snapshot());
              && (r.Ok? <==> id in before.categories) && (r.Err? ==> r.error == NotFound && after == before)
              && (r.Ok? ==>
                    && after == before.(categories := after.categories)
                    && var used := exists k :: k in before.products && before.products[k].categoryId == id;
                       after.categories == if used then before.categories[id := before.categories[id].(active := false)]
                                      else before.categories - {id})
    {
      hide Valid;
      StepValid(prisma.Snapshot(), OnCategories(RemoveC(id)));
      if id !in prisma.categories {
        return Err(NotFound);
      }
      if |ProductsIn(prisma.products, id)| > 0 {
        prisma.categories := prisma.categories[id := prisma.categories[id].(active := false)];
        return Ok(());
      }
      prisma.categories := prisma.categories - {id};
      r := Ok(());
    }
  }

  class ProductsService {
    const prisma: PrismaService

    constructor (prisma: PrismaService)
      ensures this.prisma == prisma
    {
      this.prisma := prisma;
    }

    method Create(dto: Product) returns (r: Result<Id>)
      modifies prisma
      ensures var call := CreateProduct(old(prisma.Snapshot()), dto);
              Reports(r, call) && prisma.Snapshot() == After(old(prisma.Snapshot()), call)
      ensures Valid(old(prisma.Snapshot())) ==> Valid(prisma.Snapshot())
      ensures r.Ok? ==> r.value == old(prisma.next)
      ensures r == Err(Conflict) <==> exists k :: k in old(prisma.products) && old(prisma.products)[k].sku == dto.sku
      ensures var (before, after) := (old(prisma.Snapshot()), prisma.Snapshot());
              && (r != Err(Conflict) ==>
                    r == if dto.categoryId !in before.categories then Err(BadRequest) else Ok(before.next))
              && (r.Err? ==> after == before)
              && (r.Ok? ==> after == before.(products := before.products[r.value := dto], next := after.next))
    {
      hide Valid;
      StepValid(prisma.Snapshot(), OnProducts(CreateP(dto)));
      if SkuTaken(prisma.products, dto.sku) {
        ghost var k :| k in prisma.products && prisma.products[k].sku == dto.sku;
        return Err(Conflict);
      }
      if dto.categoryId !in prisma.categories {
        return Err(BadRequest);
      }
      prisma.products := prisma.products[prisma.next := dto];
      r := Ok(prisma.next);
      prisma.next := prisma.next + 1;
    }

    method Update(id: Id, dto: UpdateProductDto) returns (r: Result<()>)
      modifies prisma
      ensures var call := UpdateProduct(old(prisma.Snapshot()), id, dto);
              Reports(r, call) && prisma.Snapshot() == After(old(prisma.Snapshot()), call)
      ensures Valid(old(prisma.Snapshot())) ==> Valid(prisma.Snapshot())
      ensures r == Err(Conflict) <==>
                && id in old(prisma.products) && dto.sku.Put? && dto.sku.value != old(prisma.products)[id].sku
                && exists k :: k in old(prisma.products) && old(prisma.products)[k].sku == dto.sku.value
      ensures var (before, after) := (old(prisma.Snapshot()), prisma.Snapshot());
              && (id !in before.products ==> r == Err(NotFound))
              && (id in before.products && r != Err(Conflict) ==>
                    r == if dto.categoryId.Put? && dto.categoryId.value !in before.categories
                         then Err(BadRequest) else Ok(()))
              && (r.Err? ==> after == before)
              && (r.Ok? ==>
                    && id in after.products && after == before.(products := before.products[id := after.products[id]])
                    && Patched(dto.sku, before.products[id].sku, after.products[id].sku)
                    && Patched(dto.categoryId, before.products[id].categoryId, after.products[id].categoryId)
                    && Patched(dto.active, before.products[id].active, after.products[id].active))
    {
      hide Valid;
      StepValid(prisma.Snapshot(), OnProducts(UpdateP(id, dto)));
      if id !in prisma.products {
        return Err(NotFound);
      }
      var product := prisma.products[id];
      if dto.sku.Put? && dto.sku.value != product.sku {
        if SkuTaken(prisma.products, dto.sku.value) {
          ghost var k :| k in prisma.products && prisma.products[k].sku == dto.sku.value;
          return Err(Conflict);
        }
      }
      if dto.categoryId.Put? && dto.categoryId.value !in prisma.categories {
        return Err(BadRequest);
      }
      var categoryId := dto.categoryId.On(product.categoryId);
      var updated := Product(dto.sku.On(product.sku), categoryId, dto.active.On(product.active));
      prisma.products := prisma.products[id := updated];
      r := Ok(());
    }

    method Remove(id: Id) returns (r: Result<()>)
      modifies prisma
      ensures var call := RemoveProduct(old(prisma.Snapshot()), id);
              Reports(r, call) && prisma.Snapshot() == After(old(prisma.Snapshot()), call)
      ensures Valid(old(prisma.Snapshot())) ==> Valid(prisma.Snapshot())
      ensures var (before, after) := (old(prisma.Snapshot()), prisma.Snapshot());
              && (r.Ok? <==> id in before.products) && (r.Err? ==> r.error == NotFound && after == before)
              && (r.Ok? ==>
                    if exists k :: k in before.ticketLines && before.ticketLines[k] == id
                    then after == before.(products := before.products[id := before.products[id].(active := false)])
                    else
                      && after == before.(
                           products := before.products - {id},
                           recipes := map k | k in before.recipes && before.recipes[k].productId != id
                                        :: before.recipes[k],
                           ingredients := map k | && k in before.ingredients
                                                  && before.ingredients[k].recipeId in after.recipes
                                            :: before.ingredients[k]))
    {
      hide Valid;
      StepValid(prisma.Snapshot(), OnProducts(RemoveP(id)));
      if id !in prisma.products {
        return Err(NotFound);
      }
      if |TicketLinesOf(prisma.ticketLines, id)| > 0 {
        prisma.products := prisma.products[id := prisma.products[id].(active := false)];
        return Ok(());
      }
      prisma.products := prisma.products - {id};
      // the database cascades the delete
      prisma.recipes := RecipesWithout(prisma.recipes, id);
      prisma.ingredients := IngredientsIn(prisma.ingredients, prisma.recipes.Keys);
      r := Ok(());
    }
  }

  class SuppliersService {
    const prisma: PrismaService

    constructor (prisma: PrismaService)
      ensures this.prisma == prisma
    {
      this.prisma := prisma;
    }

    method Create(code: string, active: bool) returns (r: Result<Id>)
      modifies prisma
      ensures var call := CreateSupplier(old(prisma.Snapshot()), code, active);
              Reports(r, call) && prisma.Snapshot() == After(old(prisma.Snapshot()), call)
      ensures Valid(old(prisma.Snapshot())) ==> Valid(prisma.Snapshot())
      ensures r.Ok? ==> r.value == old(prisma.next)
      ensures r == Err(Conflict) <==> exists k :: k in old(prisma.suppliers) && old(prisma.suppliers)[k].code == code
      ensures var (before, after) := (old(prisma.Snapshot()), prisma.Snapshot());
              && (r != Err(Conflict) ==> r == Ok(before.next))
              && (r.Err? ==> after == before)
              && (r.Ok? ==> after == before.(
                    suppliers := before.suppliers[r.value := Supplier(code, active)], next := after.next))
    {
      hide Valid;
      StepValid(prisma.Snapshot(), OnSuppliers(CreateS(code, active)));
      if SupplierCodeTaken(prisma.suppliers, code) {
        ghost var k :| k in prisma.suppliers && prisma.suppliers[k].code == code;
        return Err(Conflict);
      }
      prisma.suppliers := prisma.suppliers[prisma.next := Supplier(code, active)];
      r := Ok(prisma.next);
      prisma.next := prisma.next + 1;
    }

    method Update(id: Id, dto: UpdateSupplierDto) returns (r: Result<()>)
      modifies prisma
      ensures var call := UpdateSupplier(old(prisma.Snapshot()), id, dto);
              Reports(r, call) && prisma.Snapshot() == After(old(prisma.Snapshot()), call)
      ensures Valid(old(prisma.Snapshot())) ==> Valid(prisma.Snapshot())
      ensures var (before, after) := (old(prisma.Snapshot()), prisma.Snapshot());
              && (r.Ok? <==> && id in before.suppliers
                             && (dto.code.Put? && dto.code.value != before.suppliers[id].code ==>
                                   forall k :: k in before.suppliers ==> before.suppliers[k].code != dto.code.value))
              && (r.Err? ==> r.error == (if id in before.suppliers then Conflict else NotFound) && after == before)
              && (r.Ok? ==>
                    && id in after.suppliers
                    && after == before.(suppliers := before.suppliers[id := after.suppliers[id]])
                    && Patched(dto.code, before.suppliers[id].code, after.suppliers[id].code)
                    && Patched(dto.active, before.suppliers[id].active, after.suppliers[id].active))
    {
      hide Valid;
      StepValid(prisma.Snapshot(), OnSuppliers(UpdateS(id, dto)));
      if id !in prisma.suppliers {
        return Err(NotFound);
      }
      var supplier := prisma.suppliers[id];
      if dto.code.Put? && dto.code.value != supplier.code {
        if SupplierCodeTaken(prisma.suppliers, dto.code.value) {
          ghost var k :| k in prisma.suppliers && prisma.suppliers[k].code == dto.code.value;
          return Err(Conflict);
        }
      }
      var updated := Supplier(dto.code.On(supplier.code), dto.active.On(supplier.active));
      prisma.suppliers := prisma.suppliers[id := updated];
      r := Ok(());
    }

    method Remove(id: Id) returns (r: Result<()>)
      modifies prisma
      ensures var call := RemoveSupplier(old(prisma.Snapshot()), id);
              Reports(r, call) && prisma.Snapshot() == After(old(prisma.Snapshot()), call)
      ensures Valid(old(prisma.Snapshot())) ==> Valid(prisma.Snapshot())
      ensures var (before, after) := (old(prisma.Snapshot()), prisma.Snapshot());
              && (r.Ok? <==> id in before.suppliers) && (r.Err? ==> r.error == NotFound && after == before)
              && (r.Ok? ==>
                    && after == before.(suppliers := after.suppliers)
                    && var used := exists k :: k in before.items && before.items[k].supplierId == Some(id);
                       after.suppliers == if used then before.suppliers[id := before.suppliers[id].(active := false)]
                                      else before.suppliers - {id})
    {
      hide Valid;
      StepValid(prisma.Snapshot(), OnSuppliers(RemoveS(id)));
      if id !in prisma.suppliers {
        return Err(NotFound);
      }
      if |ItemsFrom(prisma.items, id)| > 0 {
        prisma.suppliers := prisma.suppliers[id := prisma.suppliers[id].(active := false)];
        return Ok(());
      }
      prisma.suppliers := prisma.suppliers - {id};
      r := Ok(());
    }
  }

  class InventoryItemsService {
    const prisma: PrismaService

    constructor (prisma: PrismaService)
      ensures this.prisma == prisma
    {
      this.prisma := prisma;
    }

    method Create(code: string, ref: SupplierRef) returns (r: Result<Id>)
      modifies prisma
      ensures var call := CreateItem(old(prisma.Snapshot()), code, ref);
              Reports(r, call) && prisma.Snapshot() == After(old(prisma.Snapshot()), call)
      ensures Valid(old(prisma.Snapshot())) ==> Valid(prisma.Snapshot())
      ensures r.Ok? ==> r.value == old(prisma.next)
      ensures r == Err(Conflict) <==> exists k :: k in old(prisma.items) && old(prisma.items)[k].code == code
      ensures var (before, after) := (old(prisma.Snapshot()), prisma.Snapshot());
              && (r != Err(Conflict) ==>
                    r == if ref.To? && ref.id !in before.suppliers then Err(BadRequest)
                         else if ref.Blank? then Err(ForeignKey)
                         else Ok(before.next))
              && (r.Err? ==> after == before)
              && (r.Ok? ==>
                    var row := Item(code, if ref.To? then Some(ref.id) else None, true);
                    after == before.(items := before.items[r.value := row], next := after.next))
    {
      hide Valid;
      StepValid(prisma.Snapshot(), OnItems(CreateI(code, ref)));
      if ItemCodeTaken(prisma.items, code) {
        ghost var k :| k in prisma.items && prisma.items[k].code == code;
        return Err(Conflict);
      }
      if ref.To? && ref.id !in prisma.suppliers {
        return Err(BadRequest);
      }
      if ref.Blank? {
        return Err(ForeignKey);
      }
      prisma.items := prisma.items[prisma.next := Item(code, SupplierAfter(ref, None), true)];
      r := Ok(prisma.next);
      prisma.next := prisma.next + 1;
    }

    method Update(id: Id, dto: UpdateItemDto) returns (r: Result<()>)
      modifies prisma
      ensures var call := UpdateItem(old(prisma.Snapshot()), id, dto);
              Reports(r, call) && prisma.Snapshot() == After(old(prisma.Snapshot()), call)
      ensures Valid(old(prisma.Snapshot())) ==> Valid(prisma.Snapshot())
      ensures r == Err(Conflict) <==>
                && id in old(prisma.items) && dto.code.Put? && dto.code.value != old(prisma.items)[id].code
                && exists k :: k in old(prisma.items) && old(prisma.items)[k].code == dto.code.value
      ensures var (before, after) := (old(prisma.Snapshot()), prisma.Snapshot());
              && (id !in before.items ==> r == Err(NotFound))
              && (id in before.items && r != Err(Conflict) ==>
                    r == if dto.supplier.To? && dto.supplier.id !in before.suppliers then Err(BadRequest)
                         else if dto.supplier.Blank? then Err(ForeignKey)
                         else Ok(()))
              && (r.Err? ==> after == before)
              && (r.Ok? ==>
                    && id in after.items && after == before.(items := before.items[id := after.items[id]])
                    && Patched(dto.code, before.items[id].code, after.items[id].code)
                    && Patched(dto.active, before.items[id].active, after.items[id].active)
                    && (dto.supplier.Absent? ==> after.items[id].supplierId == before.items[id].supplierId)
                    && (dto.supplier.Null? ==> after.items[id].supplierId == None)
                    && (dto.supplier.To? ==> after.items[id].supplierId == Some(dto.supplier.id)))
    {
      hide Valid;
      StepValid(prisma.Snapshot(), OnItems(UpdateI(id, dto)));
      if id !in prisma.items {
        return Err(NotFound);
      }
      var item := prisma.items[id];
      if dto.code.Put? && dto.code.value != item.code {
        if ItemCodeTaken(prisma.items, dto.code.value) {
          ghost var k :| k in prisma.items && prisma.items[k].code == dto.code.value;
          return Err(Conflict);
        }
      }
      if dto.supplier.To? && dto.supplier.id !in prisma.suppliers {
        return Err(BadRequest);
      }
      if dto.supplier.Blank? {
        return Err(ForeignKey);
      }
      var supplierId := SupplierAfter(dto.supplier, item.supplierId);
      var updated := Item(dto.code.On(item.code), supplierId, dto.active.On(item.active));
      prisma.items := prisma.items[id := updated];
      r := Ok(());
    }

    method Remove(id: Id) returns (r: Result<()>)
      modifies prisma
      ensures var call := RemoveItem(old(prisma.Snapshot()), id);
              Reports(r, call) && prisma.Snapshot() == After(old(prisma.Snapshot()), call)
      ensures Valid(old(prisma.Snapshot())) ==> Valid(prisma.Snapshot())
      ensures var (before, after) := (old(prisma.Snapshot()), prisma.Snapshot());
              && (r.Ok? <==> id in before.items) && (r.Err? ==> r.error == NotFound && after == before)
              && (r.Ok? ==>
                    && after == before.(items := after.items)
                    && var used :=
                         || (exists k :: k in before.ingredients && before.ingredients[k].inventoryItemId == id)
                         || (exists k :: k in before.movements && before.movements[k] == id);
                       after.items == if used then before.items[id := before.items[id].(active := false)]
                                      else before.items - {id})
    {
      hide Valid;
      StepValid(prisma.Snapshot(), OnItems(RemoveI(id)));
      if id !in prisma.items {
        return Err(NotFound);
      }
      if |IngredientsOfItem(prisma.ingredients, id)| > 0 || |MovementsOf(prisma.movements, id)| > 0 {
        prisma.items := prisma.items[id := prisma.items[id].(active := false)];
        return Ok(());
      }
      prisma.items := prisma.items - {id};
      r := Ok(());
    }
  }

  class RecipesService {
    const prisma: PrismaService

    constructor (prisma: PrismaService)
      ensures this.prisma == prisma
    {
      this.prisma := prisma;
    }

    method Create(productId: Id, ingredients: Option<seq<IngredientDto>>) returns (r: Result<Id>)
      modifies prisma
      ensures var call := CreateRecipe(old(prisma.Snapshot()), productId, ingredients);
              Reports(r, call) && prisma.Snapshot() == After(old(prisma.Snapshot()), call)
      ensures Valid(old(prisma.Snapshot())) ==> Valid(prisma.Snapshot())
      ensures r.Ok? ==> r.value == old(prisma.next)
      ensures var (before, after) := (old(prisma.Snapshot()), prisma.Snapshot());
              && (r.Ok? <==> productId in before.products && Accepted(before.items, ingredients.GetOr([])))
              && (r.Err? ==> r.error == BadRequest && after == before)
              && (r.Ok? ==>
                    && after == before.(
                         recipes := before.recipes[r.value := Recipe(productId, true)],
                         ingredients := after.ingredients, next := after.next)
                    && Writes(before.ingredients, after.ingredients, r.value, r.value + 1, ingredients.GetOr([])))
    {
      hide Valid, FindMany, NewIngredients, Accepted, Writes;
      StepValid(prisma.Snapshot(), OnRecipes(CreateR(productId, ingredients)));
      AcceptedExactly(prisma.items, ingredients);
      NewIngredientsWrite(prisma.ingredients, prisma.next, prisma.next + 1, ingredients.GetOr([]));
      if productId !in prisma.products {
        return Err(BadRequest);
      }
      if ingredients.Some? && |ingredients.value| > 0 {
        var ingredientIds := ItemIds(ingredients.value);
        var inventoryItems := FindMany(prisma.items.Keys, ingredientIds);
        if |inventoryItems| != |ingredientIds| {
          return Err(BadRequest);
        }
      }
      var id := prisma.CreateRecipeRow(productId, ingredients.GetOr([]));
      r := Ok(id);
    }

    method Update(id: Id, dto: UpdateRecipeDto) returns (r: Result<()>)
      modifies prisma
      ensures var call := UpdateRecipe(old(prisma.Snapshot()), id, dto);
              Reports(r, call) && prisma.Snapshot() == After(old(prisma.Snapshot()), call)
      ensures Valid(old(prisma.Snapshot())) ==> Valid(prisma.Snapshot())
      ensures var (before, after) := (old(prisma.Snapshot()), prisma.Snapshot());
              && (r.Ok? <==> && id in before.recipes
                             && (dto.productId.Put? ==> dto.productId.value in before.products)
                             && Accepted(before.items, dto.ingredients.GetOr([])))
              && (r.Err? ==> r.error == (if id in before.recipes then BadRequest else NotFound) && after == before)
              && (r.Ok? ==>
                    && id in after.recipes
                    && after == before.(
                         recipes := before.recipes[id := after.recipes[id]],
                         ingredients := after.ingredients, next := after.next)
                    && Patched(dto.productId, before.recipes[id].productId, after.recipes[id].productId)
                    && Patched(dto.active, before.recipes[id].active, after.recipes[id].active)
                    && var dtos := dto.ingredients.GetOr([]);
                       var others := map k | k in before.ingredients && before.ingredients[k].recipeId != id
                                       :: before.ingredients[k];
                       var kept := if dtos == [] then before.ingredients else others;
                       Writes(kept, after.ingredients, id, before.next, dtos))
    {
      hide Valid, FindMany, NewIngredients, Accepted, Writes, NewIngredient;
      StepValid(prisma.Snapshot(), OnRecipes(UpdateR(id, dto)));
      AcceptedExactly(prisma.items, dto.ingredients);
      NewIngredientsWrite(prisma.ingredients, id, prisma.next, []);
      NewIngredientsWrite(IngredientsOfOthers(prisma.ingredients, id), id, prisma.next, dto.ingredients.GetOr([]));
      if id !in prisma.recipes {
        return Err(NotFound);
      }
      if dto.productId.Put? && dto.productId.value !in prisma.products {
        return Err(BadRequest);
      }
      if dto.ingredients.Some? && |dto.ingredients.value| > 0 {
        var ingredientIds := ItemIds(dto.ingredients.value);
        var inventoryItems := FindMany(prisma.items.Keys, ingredientIds);
        if |inventoryItems| != |ingredientIds| {
          return Err(BadRequest);
        }
        prisma.ingredients := IngredientsOfOthers(prisma.ingredients, id);
      }
      assert !RefusedIngredients(prisma.items, dto.ingredients);
      var recipe := prisma.recipes[id];
      prisma.recipes := prisma.recipes[id := Recipe(dto.productId.On(recipe.productId), dto.active.On(recipe.active))];
      if dto.ingredients.Some? {
        prisma.CreateIngredients(id, dto.ingredients.value);
      }
      r := Ok(());
    }

    method Remove(id: Id) returns (r: Result<()>)
      modifies prisma
      ensures var call := RemoveRecipe(old(prisma.Snapshot()), id);
              Reports(r, call) && prisma.Snapshot() == After(old(prisma.Snapshot()), call)
      ensures Valid(old(prisma.Snapshot())) ==> Valid(prisma.Snapshot())
      ensures var (before, after) := (old(prisma.Snapshot()), prisma.Snapshot());
              && (r.Ok? <==> id in before.recipes) && (r.Err? ==> r.error == NotFound && after == before)
              && (r.Ok? ==> after == before.(
                    recipes := before.recipes - {id},
                    ingredients := map k | k in before.ingredients && before.ingredients[k].recipeId != id
                                     :: before.ingredients[k]))
    {
      hide Valid;
      StepValid(prisma.Snapshot(), OnRecipes(RemoveR(id)));
      if id !in prisma.recipes {
        return Err(NotFound);
      }
      prisma.ingredients := IngredientsOfOthers(prisma.ingredients, id);
      prisma.recipes := prisma.recipes - {id};
      r := Ok(());
    }
  }
}
